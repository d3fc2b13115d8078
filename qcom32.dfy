// The Qualcomm secondary-data provider of the offline dump service
// (class QCom32, OffDmpSvc/qcom/qcom32.cpp). It copies the RST_STAT and
// PMIC_PON sections out of the raw dump, locates AP_REG and the in-memory
// diag data through UEFI variables, decides the bug check code and
// parameters the dump is filed under, and fills the device specific info
// record. Every UEFI query, disk read and DDR read is an input to the
// model: the outcome of the call it stands for.
module QcomSv {
  import opened Machine
  import opened Status
  import opened RawDumpDefs
  import SvPlan
  import SvGuidTable
  import DeviceSpecific

  // ------------------------------------------------------------ constants

  /** FATAL_ABNORMAL_RESET_ERROR, the bug check code of an offline dump (BUGCHECK_CODE). */
  const FATAL_ABNORMAL_RESET_ERROR: u32 := 0x14C

  const ONEFOURC_PARAM1_UNKNOWN: u32 := 0xFFFF_FFFF
  const ONEFOURC_PARAM1_WATCHDOG: u32 := 0x2
  const ONEFOURC_PARAM1_FALLBACK: u32 := 0x3
  const ONEFOURC_PARAM1_THERMAL: u32 := 0x4
  const ONEFOURC_PARAM1_USER_INITIATED: u32 := 0x5
  const ONEFOURC_PARAM2_NONSECURE_WDOG: u32 := 0x1
  const ONEFOURC_PARAM2_SECURE_WDOG: u32 := 0x2
  const ONEFOURC_VERSION1_PARAM2_DEFAULT: u32 := 0x0
  const ONEFOURC_VERSION1_PARAM3_DEFAULT: u32 := 0x0
  const ONEFOURC_VERSION1_PARAM4_DEFAULT: u32 := 0xFFFF_FFFF

  const ONEFOURC_DIAG_BUFFER_SIGNATURE_LENGTH: nat := 0x10
  const ONEFOURC_DIAG_BUFFER_BUGCHECK_DATA_COUNT: nat := 0x5
  /** "\/\/PCl2D|\/|PGo": the signature the in-memory diag buffer starts with. */
  const ONEFOURC_DIAG_BUFFER_SIGNATURE: seq<u8> :=
    [0x5C, 0x2F, 0x5C, 0x2F, 0x50, 0x43, 0x6C, 0x32, 0x44, 0x7C, 0x5C, 0x2F, 0x7C, 0x50, 0x47, 0x6F]

  const QC_ADDITIONAL_DATA_VERSION1_RST_STAT_LENGTH: nat := 0x4
  const QC_ADDITIONAL_DATA_VERSION1_PMIC_PON_LENGTH: nat := 0x8

  /** sc_status bit of a core that took the non-secure watchdog. */
  const SC_STATUS_WDT: bv32 := 0x2

  const AP_REG_STRUCTURE_MAGIC_VALUE: u32 := 0x4443_4151
  /** sizeof(AP_REG_B_FAMILY_HEADER): Magic, Version, CPU_Count. */
  const AP_REG_B_FAMILY_HEADER_SIZE: nat := 12
  /** sizeof(CPU_STATUS). */
  const CPU_STATUS_SIZE: nat := 4

  /** sizeof(IN_MEM_DATA_INFO): DataVA, DataPA and Size, aligned to 8. */
  const IN_MEM_DATA_INFO_SIZE: u32 := 24
  /** sizeof(INMEM_DIAG_BUFFER) in a 64-bit build: ONEFOURC_DIAG_BUFFER (56) and QC_ADDITIONAL_DATA (32). */
  const INMEM_DIAG_BUFFER_SIZE: u32 := 88

  const PMIC_PON_GUID: SvPlan.Guid :=
    SvPlan.Guid(0x10D25EDD, 0x1558, 0x4B88, [0xAB, 0x5C, 0xE8, 0x1E, 0x7F, 0x47, 0xDA, 0xD9])
  const RST_STAT_GUID: SvPlan.Guid :=
    SvPlan.Guid(0xD0352E48, 0xE359, 0x459E, [0x9B, 0xBF, 0x2E, 0x16, 0xE6, 0x28, 0xAC, 0xFB])

  // ------------------------------------------------------------ records

  /** DumpHeader->BugCheckCode and BugCheckParameter1-4. */
  datatype BugCheck = BugCheck(code: u32, p1: u32, p2: u32, p3: u32, p4: u32)

  /** The SBLDumpProgress bits QCom32 reads and writes. */
  datatype DumpProgress = DumpProgress(
    isAPRegPresent: bool,
    isInMemDataInfoFound: bool,
    isDiagBufferBuilt: bool,
    isPmicPonBinCopied: bool,
    isRstStatBinCopied: bool)

  /** IN_MEM_DATA_INFO. */
  datatype InMemDataInfo = InMemDataInfo(dataVa: u64, dataPa: u64, size: u32)

  const ZERO_IN_MEM_DATA_INFO: InMemDataInfo := InMemDataInfo(0, 0, 0)

  /**
   * The QCom32 object and the part of its DMP_CONTEXT it uses, as a value.
   * `apReg` is m_ApReg: None for a null pointer, otherwise the CPU_STATUS
   * words that follow the AP_REG header. `inMemDiagBuffer` is
   * m_InMemDiagBuffer, by its BugCheckData words.
   */
  datatype QState = QState(
    dumpHeader: BugCheck,
    progress: DumpProgress,
    isAPREG64Bit: bool,
    is64Bit: bool,
    dumpInstance: u64,
    largestSvSpecificSectionSize: u64,
    apRegAddress: u64,
    apReg: Option<seq<u32>>,
    inMemDataInfo: InMemDataInfo,
    inMemDiagBuffer: Option<seq<u32>>,
    rstStatBin: seq<u8>,
    pmicPonBin: seq<u8>)

  /** The member arrays have their declared lengths and a built diag buffer exists. */
  predicate Consistent(s: QState)
  {
    && |s.rstStatBin| == QC_ADDITIONAL_DATA_VERSION1_RST_STAT_LENGTH
    && |s.pmicPonBin| == QC_ADDITIONAL_DATA_VERSION1_PMIC_PON_LENGTH
    && (s.progress.isDiagBufferBuilt ==>
          s.inMemDiagBuffer.Some? && |s.inMemDiagBuffer.value| == ONEFOURC_DIAG_BUFFER_BUGCHECK_DATA_COUNT)
  }

  /** An AP_REG marked present can be read through m_ApReg. */
  predicate ApRegHeld(s: QState)
  {
    s.progress.isAPRegPresent ==> s.apReg.Some?
  }

  // ------------------------------------------------------------ inputs

  /** The HRESULTs of hDisk.SetPos and hDisk.Read for one section, and the bytes Read stored. */
  datatype SectionRead = SectionRead(setPos: HResult, read: HResult, data: seq<u8>)

  /** The status and value NtQuerySystemEnvironmentValueEx returns for the AP_REG address variable. */
  datatype AddressQuery = AddressQuery(status: NtStatus, address: u64)

  /** The status, returned size and value of the IN_MEM_DATA_INFO variable. */
  datatype InMemQuery = InMemQuery(status: NtStatus, dataSize: u32, info: InMemDataInfo)

  /** A ReadFromDDRSectionByPhysicalAddress call: its HRESULT and the bytes it stored. */
  datatype DdrRead = DdrRead(hr: HResult, bytes: seq<u8>)

  /** The outcomes of the calls ProcessSVSpecific makes, in the order it makes them. */
  datatype Firmware = Firmware(
    sectionRead: SectionHeader -> SectionRead,
    svHeapOk: bool,
    apRegQuery: AddressQuery,
    apRegHeaderRead: DdrRead,
    apRegStatusRead: DdrRead,
    inMemQuery: InMemQuery,
    inMemReset: NtStatus,
    diagHeapOk: bool,
    signatureRead: DdrRead,
    bugCheckRead: DdrRead,
    dummyRead: DdrRead)

  /** The first n bytes of a zeroed buffer of `capacity` bytes once a read stored `data` at its start. */
  function BufferPrefix(data: seq<u8>, capacity: nat, n: nat): (r: seq<u8>)
    ensures |r| == n
  {
    seq(n, i requires 0 <= i < n => if i < |data| && i < capacity then data[i] else 0)
  }

  /** `count` ULONGs laid out from the start of a read of count × 4 bytes. */
  function Words(data: seq<u8>, count: nat): (r: seq<u32>)
    ensures |r| == count
  {
    var b := BufferPrefix(data, 4 * count, 4 * count);
    seq(count, i requires 0 <= i < count => U32At(b, 4 * i))
  }

  // ---------------------------------------------------- GetSVSpecificInfo

  /** m_PmicPonBin, m_RstStatBin and their progress bits. */
  datatype SvCopies = SvCopies(pmicPon: seq<u8>, pmicPonCopied: bool, rstStat: seq<u8>, rstStatCopied: bool)

  function CopiesOf(s: QState): SvCopies
  {
    SvCopies(s.pmicPonBin, s.progress.isPmicPonBinCopied, s.rstStatBin, s.progress.isRstStatBinCopied)
  }

  function WithCopies(s: QState, c: SvCopies): QState
  {
    s.(pmicPonBin := c.pmicPon, rstStatBin := c.rstStat,
       progress := s.progress.(isPmicPonBinCopied := c.pmicPonCopied, isRstStatBinCopied := c.rstStatCopied))
  }

  /** The GUID the GUIDToName table gives a section name. */
  function GuidOfName(name: Name20): SvPlan.Guid
  {
    SvGuidTable.GUID_TO_NAME[SvGuidTable.GuidIndexOf(name)].guid
  }

  /**
   * The copy step for one SV specific section: a section whose GUID is
   * PMIC_PON_GUID gives its first 8 bytes to m_PmicPonBin, one whose GUID
   * is RST_STAT_GUID its first 4 bytes to m_RstStatBin; `largest` is the
   * size of the zeroed buffer the section was read into.
   */
  function CopySection(c: SvCopies, name: Name20, data: seq<u8>, largest: nat): SvCopies
  {
    var guid := GuidOfName(name);
    if guid == PMIC_PON_GUID then
      c.(pmicPon := BufferPrefix(data, largest, QC_ADDITIONAL_DATA_VERSION1_PMIC_PON_LENGTH), pmicPonCopied := true)
    else if guid == RST_STAT_GUID then
      c.(rstStat := BufferPrefix(data, largest, QC_ADDITIONAL_DATA_VERSION1_RST_STAT_LENGTH), rstStatCopied := true)
    else c
  }

  /** The HRESULT a section read stops at: SetPos's if it failed, else Read's if it failed. */
  function ReadFailure(r: SectionRead): Option<HResult>
  {
    if !Succeeded(r.setPos) then Some(r.setPos)
    else if !Succeeded(r.read) then Some(r.read)
    else None
  }

  predicate IsSvSpecific(s: SectionHeader)
  {
    s.sectionType == RAW_DUMP_SECTION_TYPE_SV_SPECIFIC
  }

  /**
   * The section loop of GetSVSpecificInfo over the sections still to visit:
   * each SV specific section is read and copied; the first failed read
   * ends the loop with its HRESULT, keeping the copies made before it.
   */
  function SvScan(sections: seq<SectionHeader>, read: SectionHeader -> SectionRead, largest: nat, c: SvCopies)
    : (HResult, SvCopies)
  {
    if |sections| == 0 then (S_OK, c)
    else if !IsSvSpecific(sections[0]) then SvScan(sections[1..], read, largest, c)
    else
      var r := read(sections[0]);
      match ReadFailure(r)
      case Some(hr) => (hr, c)
      case None => SvScan(sections[1..], read, largest, CopySection(c, sections[0].name, r.data, largest))
  }

  /** A section that is not SV specific is passed over. */
  lemma SvScanSkips(sections: seq<SectionHeader>, i: nat, read: SectionHeader -> SectionRead, largest: nat, c: SvCopies)
    requires i < |sections| && !IsSvSpecific(sections[i])
    ensures SvScan(sections[i..], read, largest, c) == SvScan(sections[i + 1..], read, largest, c)
  {
    assert sections[i..][0] == sections[i] && sections[i..][1..] == sections[i + 1..];
  }

  /** An SV specific section whose read fails ends the scan with the failure. */
  lemma SvScanStops(sections: seq<SectionHeader>, i: nat, read: SectionHeader -> SectionRead, largest: nat, c: SvCopies, hr: HResult)
    requires i < |sections| && IsSvSpecific(sections[i]) && ReadFailure(read(sections[i])) == Some(hr)
    ensures SvScan(sections[i..], read, largest, c) == (hr, c)
  {
    assert sections[i..][0] == sections[i];
  }

  /** An SV specific section read in full is copied and the scan goes on. */
  lemma SvScanCopies(sections: seq<SectionHeader>, i: nat, read: SectionHeader -> SectionRead, largest: nat, c: SvCopies)
    requires i < |sections| && IsSvSpecific(sections[i]) && ReadFailure(read(sections[i])).None?
    ensures SvScan(sections[i..], read, largest, c)
            == SvScan(sections[i + 1..], read, largest, CopySection(c, sections[i].name, read(sections[i]).data, largest))
  {
    assert sections[i..][0] == sections[i] && sections[i..][1..] == sections[i + 1..];
  }

  /** GetSVSpecificInfo: E_FAIL when the intermediate buffer cannot be allocated, else the section loop. */
  function SvSpecificInfo(s: QState, sections: seq<SectionHeader>, fw: Firmware): (HResult, QState)
  {
    if !fw.svHeapOk then (E_FAIL, s)
    else
      var r := SvScan(sections, fw.sectionRead, s.largestSvSpecificSectionSize as nat, CopiesOf(s));
      (r.0, WithCopies(s, r.1))
  }

  const PMIC_PON_NAME: Name20 := SvGuidTable.GUID_TO_NAME[6].name
  const RST_STAT_NAME: Name20 := SvGuidTable.GUID_TO_NAME[7].name

  /** PMIC_PON_GUID and RST_STAT_GUID are the GUIDs of the seventh and eighth GUIDToName entries only. */
  lemma TableGuids()
    ensures forall k :: 0 <= k < |SvGuidTable.GUID_TO_NAME| ==>
              (SvGuidTable.GUID_TO_NAME[k].guid == PMIC_PON_GUID <==> k == 6) &&
              (SvGuidTable.GUID_TO_NAME[k].guid == RST_STAT_GUID <==> k == 7)
  {
    var t := SvGuidTable.GUID_TO_NAME;
    forall k | 0 <= k < |t|
      ensures (t[k].guid == PMIC_PON_GUID <==> k == 6) && (t[k].guid == RST_STAT_GUID <==> k == 7)
    {
      assert t[k].guid.data1 == PMIC_PON_GUID.data1 <==> k == 6;
      assert t[k].guid.data1 == RST_STAT_GUID.data1 <==> k == 7;
    }
  }

  /** A name has the GUID PMIC_PON_GUID exactly when it is PMIC_PON.BIN. */
  lemma PmicPonGuidIffName(name: Name20)
    ensures GuidOfName(name) == PMIC_PON_GUID <==> name == PMIC_PON_NAME
  {
    var k := SvGuidTable.GuidIndexOf(name);
    TableGuids();
    if name == PMIC_PON_NAME {
      SvGuidTable.GuidIndexOfListed(6);
    } else {
      assert k != 6;
    }
  }

  /** A name has the GUID RST_STAT_GUID exactly when it is RST_STAT.BIN. */
  lemma RstStatGuidIffName(name: Name20)
    ensures GuidOfName(name) == RST_STAT_GUID <==> name == RST_STAT_NAME
  {
    var k := SvGuidTable.GuidIndexOf(name);
    TableGuids();
    if name == RST_STAT_NAME {
      SvGuidTable.GuidIndexOfListed(7);
    } else {
      assert k != 7;
    }
  }

  /**
   * A section named PMIC_PON.BIN fills m_PmicPonBin and its bit, one named
   * RST_STAT.BIN fills m_RstStatBin and its bit, and any other name copies
   * nothing.
   */
  lemma CopySectionByName(c: SvCopies, name: Name20, data: seq<u8>, largest: nat)
    ensures name == PMIC_PON_NAME ==>
              CopySection(c, name, data, largest)
                == c.(pmicPon := BufferPrefix(data, largest, QC_ADDITIONAL_DATA_VERSION1_PMIC_PON_LENGTH), pmicPonCopied := true)
    ensures name == RST_STAT_NAME ==>
              CopySection(c, name, data, largest)
                == c.(rstStat := BufferPrefix(data, largest, QC_ADDITIONAL_DATA_VERSION1_RST_STAT_LENGTH), rstStatCopied := true)
    ensures name != PMIC_PON_NAME && name != RST_STAT_NAME ==> CopySection(c, name, data, largest) == c
  {
    PmicPonGuidIffName(name);
    RstStatGuidIffName(name);
  }

  /**
   * A section name that no GUIDToName entry carries selects the last entry
   * (UNKNOWN), and such a section copies nothing.
   */
  lemma UnknownNameCopiesNothing(c: SvCopies, name: Name20, data: seq<u8>, largest: nat)
    requires forall j :: 0 <= j < |SvGuidTable.GUID_TO_NAME| ==> SvGuidTable.GUID_TO_NAME[j].name != name
    ensures SvGuidTable.GuidIndexOf(name) == |SvGuidTable.GUID_TO_NAME| - 1
    ensures GuidOfName(name) == SvGuidTable.GUID_TO_NAME[SvGuidTable.UNKNOWN_INDEX].guid
    ensures CopySection(c, name, data, largest) == c
  {
    CopySectionByName(c, name, data, largest);
  }

  /** Some SV specific section of `sections` carries `name`. */
  predicate HasSvSection(sections: seq<SectionHeader>, name: Name20)
  {
    exists i :: 0 <= i < |sections| && IsSvSpecific(sections[i]) && sections[i].name == name
  }

  /** The section loop succeeds exactly when every SV specific section reads; otherwise it reports a failure. */
  lemma {:induction false} SvScanOkIff(sections: seq<SectionHeader>, read: SectionHeader -> SectionRead, largest: nat, c: SvCopies)
    ensures var r := SvScan(sections, read, largest, c);
            (r.0 == S_OK <==> forall i :: 0 <= i < |sections| && IsSvSpecific(sections[i]) ==> ReadFailure(read(sections[i])).None?)
            && (r.0 != S_OK ==> !Succeeded(r.0))
  {
    if |sections| > 0 {
      var c' := if IsSvSpecific(sections[0]) then CopySection(c, sections[0].name, read(sections[0]).data, largest) else c;
      SvScanOkIff(sections[1..], read, largest, c');
      assert forall i :: 1 <= i < |sections| ==> sections[i] == sections[1..][i - 1];
    }
  }

  /**
   * When the loop completes, IsRstStatBinCopied (and IsPmicPonBinCopied)
   * is set exactly when it was set before or an SV specific section named
   * RST_STAT.BIN (PMIC_PON.BIN) was visited.
   */
  lemma {:induction false} SvScanCopiedIff(sections: seq<SectionHeader>, read: SectionHeader -> SectionRead, largest: nat, c: SvCopies)
    ensures var r := SvScan(sections, read, largest, c);
            r.0 == S_OK ==>
              (r.1.rstStatCopied <==> c.rstStatCopied || HasSvSection(sections, RST_STAT_NAME)) &&
              (r.1.pmicPonCopied <==> c.pmicPonCopied || HasSvSection(sections, PMIC_PON_NAME))
  {
    if |sections| > 0 {
      var s0 := sections[0];
      var c' := if IsSvSpecific(s0) then CopySection(c, s0.name, read(s0).data, largest) else c;
      CopySectionByName(c, s0.name, read(s0).data, largest);
      SvScanCopiedIff(sections[1..], read, largest, c');
      HasSvSectionCons(sections, RST_STAT_NAME);
      HasSvSectionCons(sections, PMIC_PON_NAME);
    }
  }

  /** An SV specific section with the name is the first one or one of the rest. */
  lemma HasSvSectionCons(sections: seq<SectionHeader>, name: Name20)
    requires |sections| > 0
    ensures HasSvSection(sections, name) <==>
              (IsSvSpecific(sections[0]) && sections[0].name == name) || HasSvSection(sections[1..], name)
  {
    if HasSvSection(sections, name) {
      var i :| 0 <= i < |sections| && IsSvSpecific(sections[i]) && sections[i].name == name;
      if i > 0 {
        assert sections[1..][i - 1] == sections[i];
      }
    }
    if HasSvSection(sections[1..], name) {
      var i :| 0 <= i < |sections[1..]| && IsSvSpecific(sections[1..][i]) && sections[1..][i].name == name;
      assert sections[i + 1] == sections[1..][i];
    }
  }

  // ------------------------------------------------------------ GetAPReg

  /** m_APRegAddress and m_ApReg cleared, as GetAPReg starts. */
  function ApRegCleared(s: QState): QState
  {
    s.(apRegAddress := 0, apReg := None)
  }

  /**
   * GetAPReg as written: the address variable, then the AP_REG header read
   * into a local. A header without the legacy magic marks IsAPREG64Bit.
   * m_ApReg is never assigned, so it stays null even when AP_REG is valid.
   * The result is the HRESULT and *IsApRegValid.
   */
  function ApRegLookupAsWritten(s: QState, fw: Firmware): (HResult, bool, QState)
  {
    var s0 := ApRegCleared(s);
    if !NtSuccess(fw.apRegQuery.status) then (FromNt(fw.apRegQuery.status), false, s0)
    else
      var s1 := s0.(apRegAddress := fw.apRegQuery.address);
      if s1.apRegAddress == 0 then (E_UNEXPECTED, false, s1)
      else if !Succeeded(fw.apRegHeaderRead.hr) then (fw.apRegHeaderRead.hr, false, s1)
      else
        var header := BufferPrefix(fw.apRegHeaderRead.bytes, AP_REG_B_FAMILY_HEADER_SIZE, AP_REG_B_FAMILY_HEADER_SIZE);
        var s2 := if U32At(header, 0) != AP_REG_STRUCTURE_MAGIC_VALUE then s1.(isAPREG64Bit := true) else s1;
        (S_OK, true, s2)
  }

  /**
   * GetAPReg as the routines after it need it: as written, and then the
   * CPU_Count CPU_STATUS words that follow the header are read and kept as
   * m_ApReg, a failed read of them failing GetAPReg with its HRESULT.
   */
  function ApRegLookup(s: QState, fw: Firmware): (HResult, bool, QState)
  {
    var w := ApRegLookupAsWritten(s, fw);
    if w.0 != S_OK then w
    else
      var header := BufferPrefix(fw.apRegHeaderRead.bytes, AP_REG_B_FAMILY_HEADER_SIZE, AP_REG_B_FAMILY_HEADER_SIZE);
      var cpuCount := U32At(header, 8);
      if !Succeeded(fw.apRegStatusRead.hr) then (fw.apRegStatusRead.hr, false, w.2)
      else (S_OK, true, w.2.(apReg := Some(Words(fw.apRegStatusRead.bytes, cpuCount as nat))))
  }

  /**
   * GetAPReg reports AP_REG valid exactly when it returns S_OK, which needs
   * a successful query, a nonzero address and successful reads; a valid
   * AP_REG is held in m_ApReg, and only IsAPREG64Bit, the address and
   * m_ApReg change.
   */
  lemma ApRegLookupValid(s: QState, fw: Firmware)
    ensures var r := ApRegLookup(s, fw);
            && (r.1 <==> r.0 == S_OK)
            && (r.0 == S_OK <==> NtSuccess(fw.apRegQuery.status) && fw.apRegQuery.address != 0
                                 && Succeeded(fw.apRegHeaderRead.hr) && Succeeded(fw.apRegStatusRead.hr))
            && (r.1 ==> r.2.apReg.Some? && r.2.apRegAddress == fw.apRegQuery.address)
            && (r.0 != S_OK ==> !Succeeded(r.0))
            && r.2 == s.(isAPREG64Bit := r.2.isAPREG64Bit, apRegAddress := r.2.apRegAddress, apReg := r.2.apReg)
            && (r.2.isAPREG64Bit != s.isAPREG64Bit ==> r.2.isAPREG64Bit && Succeeded(fw.apRegHeaderRead.hr))
  {
  }

  // ------------------------------------------------------ GetInMemDataInfo

  /**
   * GetInMemDataInfo: IsInMemDataInfoFound and m_InMemDataInfo are cleared;
   * a failed query gives HRESULT_FROM_NT; a returned size other than
   * sizeof(IN_MEM_DATA_INFO) gives E_BAD_DATA; a failed reset of the
   * variable gives HRESULT_FROM_NT; then a zero Size, DataPA or DataVA, in
   * that order, gives E_BAD_DATA; otherwise the info is found.
   */
  function InMemDataLookup(s: QState, q: InMemQuery, resetStatus: NtStatus): (HResult, QState)
  {
    var s0 := s.(progress := s.progress.(isInMemDataInfoFound := false), inMemDataInfo := ZERO_IN_MEM_DATA_INFO);
    if !NtSuccess(q.status) then (FromNt(q.status), s0)
    else
      var s1 := s0.(inMemDataInfo := q.info);
      if q.dataSize != IN_MEM_DATA_INFO_SIZE then (E_BAD_DATA, s1)
      else if !NtSuccess(resetStatus) then (FromNt(resetStatus), s1)
      else if s1.inMemDataInfo.size == 0 then (E_BAD_DATA, s1)
      else if s1.inMemDataInfo.dataPa == 0 then (E_BAD_DATA, s1)
      else if s1.inMemDataInfo.dataVa == 0 then (E_BAD_DATA, s1)
      else (S_OK, s1.(progress := s1.progress.(isInMemDataInfoFound := true)))
  }

  /** A complete IN_MEM_DATA_INFO: the size the variable must have and no zero field. */
  predicate InMemInfoValid(q: InMemQuery)
  {
    q.dataSize == IN_MEM_DATA_INFO_SIZE && q.info.size != 0 && q.info.dataPa != 0 && q.info.dataVa != 0
  }

  /**
   * The found bit mirrors S_OK, which needs both variable calls to succeed
   * and a valid info; E_BAD_DATA is returned exactly for a successful query
   * whose size is wrong, or whose reset succeeded but one of the fields is
   * zero. Only the found bit and the info change.
   */
  lemma InMemDataOutcome(s: QState, q: InMemQuery, resetStatus: NtStatus)
    ensures var r := InMemDataLookup(s, q, resetStatus);
            && (r.1.progress.isInMemDataInfoFound <==> r.0 == S_OK)
            && (r.0 == S_OK <==> NtSuccess(q.status) && NtSuccess(resetStatus) && InMemInfoValid(q))
            && (r.0 == E_BAD_DATA <==>
                  NtSuccess(q.status) &&
                  (q.dataSize != IN_MEM_DATA_INFO_SIZE || (NtSuccess(resetStatus) && !InMemInfoValid(q))))
            && (r.0 == S_OK ==> r.1.inMemDataInfo == q.info)
            && (!NtSuccess(q.status) ==> r.0 == FromNt(q.status) && r.1.inMemDataInfo == ZERO_IN_MEM_DATA_INFO)
            && r.1 == s.(progress := s.progress.(isInMemDataInfoFound := r.1.progress.isInMemDataInfoFound),
                         inMemDataInfo := r.1.inMemDataInfo)
  {
  }

  // ------------------------------------------------------ BuildDiagBuffer

  /**
   * BuildDiagBuffer: IsDiagBufferBuilt is cleared, the in-memory data info
   * is looked up and must be large enough for INMEM_DIAG_BUFFER; after the
   * allocation the signature is read and compared, then the five bug
   * check words are read. A failed allocation returns the S_OK of the
   * lookup. The read of the dummy function address is only logged, but
   * its HRESULT is what a built buffer returns.
   */
  function DiagBufferBuild(s: QState, fw: Firmware): (HResult, QState)
  {
    var s0 := s.(progress := s.progress.(isDiagBufferBuilt := false));
    var l := InMemDataLookup(s0, fw.inMemQuery, fw.inMemReset);
    var s1 := l.1;
    if !Succeeded(l.0) then l
    else if s1.inMemDataInfo.size < INMEM_DIAG_BUFFER_SIZE then (E_UNEXPECTED, s1)
    else if !fw.diagHeapOk then (l.0, s1)
    else if !Succeeded(fw.signatureRead.hr) then (fw.signatureRead.hr, s1)
    else if BufferPrefix(fw.signatureRead.bytes, ONEFOURC_DIAG_BUFFER_SIGNATURE_LENGTH, ONEFOURC_DIAG_BUFFER_SIGNATURE_LENGTH)
              != ONEFOURC_DIAG_BUFFER_SIGNATURE then (E_BAD_DATA, s1)
    else if !Succeeded(fw.bugCheckRead.hr) then (fw.bugCheckRead.hr, s1)
    else
      (fw.dummyRead.hr, s1.(inMemDiagBuffer := Some(Words(fw.bugCheckRead.bytes, ONEFOURC_DIAG_BUFFER_BUGCHECK_DATA_COUNT)),
                            progress := s1.progress.(isDiagBufferBuilt := true)))
  }

  /**
   * The diag buffer is built exactly when the in-memory data info is found
   * and large enough, the allocation succeeds, the signature reads and
   * matches and the bug check data reads; a built buffer holds those five
   * words. BuildDiagBuffer keeps the state Consistent and AP_REG held.
   */
  lemma DiagBufferBuilt(s: QState, fw: Firmware)
    requires Consistent(s) && ApRegHeld(s)
    ensures var r := DiagBufferBuild(s, fw);
            && (r.1.progress.isDiagBufferBuilt <==>
                  && InMemDataLookup(s, fw.inMemQuery, fw.inMemReset).0 == S_OK
                  && fw.inMemQuery.info.size >= INMEM_DIAG_BUFFER_SIZE
                  && fw.diagHeapOk
                  && Succeeded(fw.signatureRead.hr)
                  && BufferPrefix(fw.signatureRead.bytes, ONEFOURC_DIAG_BUFFER_SIGNATURE_LENGTH,
                                  ONEFOURC_DIAG_BUFFER_SIGNATURE_LENGTH) == ONEFOURC_DIAG_BUFFER_SIGNATURE
                  && Succeeded(fw.bugCheckRead.hr))
            && (r.1.progress.isDiagBufferBuilt ==>
                  r.0 == fw.dummyRead.hr &&
                  r.1.inMemDiagBuffer == Some(Words(fw.bugCheckRead.bytes, ONEFOURC_DIAG_BUFFER_BUGCHECK_DATA_COUNT)))
            && (!fw.diagHeapOk && r.0 == S_OK ==> !r.1.progress.isDiagBufferBuilt)
            && Consistent(r.1) && ApRegHeld(r.1)
  {
    InMemDataOutcome(s.(progress := s.progress.(isDiagBufferBuilt := false)), fw.inMemQuery, fw.inMemReset);
    InMemDataOutcome(s, fw.inMemQuery, fw.inMemReset);
  }

  // ------------------------------------------------------ ProcessSVSpecific

  /**
   * ProcessSVSpecific: GetSVSpecificInfo, then GetAPReg, whose valid
   * report sets IsAPRegPresent, then BuildDiagBuffer, whose failure is
   * only logged. The first two failures are returned.
   */
  function ProcessSv(s: QState, sections: seq<SectionHeader>, fw: Firmware): (HResult, QState)
  {
    var sv := SvSpecificInfo(s, sections, fw);
    if !Succeeded(sv.0) then sv
    else
      var ap := ApRegLookup(sv.1, fw);
      var s2 := if ap.1 then ap.2.(progress := ap.2.progress.(isAPRegPresent := true)) else ap.2;
      if !Succeeded(ap.0) then (ap.0, s2)
      else (S_OK, DiagBufferBuild(s2, fw).1)
  }

  /**
   * ProcessSVSpecific succeeds exactly when the SV section loop and
   * GetAPReg do, and leaves a Consistent state in which a present AP_REG
   * is held.
   */
  lemma ProcessSvOutcome(s: QState, sections: seq<SectionHeader>, fw: Firmware)
    requires Consistent(s) && !s.progress.isAPRegPresent
    ensures var r := ProcessSv(s, sections, fw);
            && (r.0 == S_OK <==>
                  fw.svHeapOk && SvScan(sections, fw.sectionRead, s.largestSvSpecificSectionSize as nat, CopiesOf(s)).0 == S_OK
                  && ApRegLookup(SvSpecificInfo(s, sections, fw).1, fw).0 == S_OK)
            && Consistent(r.1) && ApRegHeld(r.1)
  {
    var sv := SvSpecificInfo(s, sections, fw);
    if fw.svHeapOk {
      var r := SvScan(sections, fw.sectionRead, s.largestSvSpecificSectionSize as nat, CopiesOf(s));
      SvScanOkIff(sections, fw.sectionRead, s.largestSvSpecificSectionSize as nat, CopiesOf(s));
      SvScanLengths(sections, fw.sectionRead, s.largestSvSpecificSectionSize as nat, CopiesOf(s));
      if Succeeded(sv.0) {
        var ap := ApRegLookup(sv.1, fw);
        ApRegLookupValid(sv.1, fw);
        var s2 := if ap.1 then ap.2.(progress := ap.2.progress.(isAPRegPresent := true)) else ap.2;
        if Succeeded(ap.0) {
          DiagBufferBuilt(s2, fw);
        }
      }
    }
  }

  /** The copies keep the lengths of the member arrays. */
  lemma {:induction false} SvScanLengths(sections: seq<SectionHeader>, read: SectionHeader -> SectionRead, largest: nat, c: SvCopies)
    requires |c.rstStat| == QC_ADDITIONAL_DATA_VERSION1_RST_STAT_LENGTH
    requires |c.pmicPon| == QC_ADDITIONAL_DATA_VERSION1_PMIC_PON_LENGTH
    ensures var r := SvScan(sections, read, largest, c);
            |r.1.rstStat| == QC_ADDITIONAL_DATA_VERSION1_RST_STAT_LENGTH &&
            |r.1.pmicPon| == QC_ADDITIONAL_DATA_VERSION1_PMIC_PON_LENGTH
  {
    if |sections| > 0 {
      var c' := if IsSvSpecific(sections[0]) then CopySection(c, sections[0].name, read(sections[0]).data, largest) else c;
      SvScanLengths(sections[1..], read, largest, c');
    }
  }

  // -------------------------------------------------- BuildBugCheckParams

  /** The values BuildBugCheckParams starts from: P4 is the diag buffer's VA, truncated to 32 bits, once built. */
  function Defaults(s: QState): BugCheck
  {
    BugCheck(FATAL_ABNORMAL_RESET_ERROR, ONEFOURC_PARAM1_UNKNOWN, ONEFOURC_VERSION1_PARAM2_DEFAULT,
             ONEFOURC_VERSION1_PARAM3_DEFAULT,
             if s.progress.isDiagBufferBuilt then Trunc32(s.inMemDataInfo.dataVa) else ONEFOURC_VERSION1_PARAM4_DEFAULT)
  }

  /** The first bug check word of a built diag buffer. */
  function BugCheckData0(s: QState): u32
    requires Consistent(s) && s.progress.isDiagBufferBuilt
  {
    s.inMemDiagBuffer.value[0]
  }

  /** The diag buffer shows a bug check other than 0x14C: the dump is the fallback of a failed online dump. */
  predicate FailedBugCheck(s: QState)
    requires Consistent(s)
  {
    s.progress.isDiagBufferBuilt && BugCheckData0(s) != FATAL_ABNORMAL_RESET_ERROR && BugCheckData0(s) != 0
  }

  /** The fallback rewrite: P3 keeps P1, P2 the original bug check code, P1 becomes FALLBACK. */
  function Fallback(s: QState, b: BugCheck): BugCheck
    requires Consistent(s)
  {
    if FailedBugCheck(s) then b.(p3 := b.p1, p2 := BugCheckData0(s), p1 := ONEFOURC_PARAM1_FALLBACK) else b
  }

  predicate RstBit(s: QState, mask: bv8)
    requires Consistent(s)
  {
    (s.rstStatBin[0] as bv8) & mask != 0
  }

  /** Some core's sc_status has the WDT bit. */
  predicate AnyWdt(status: seq<u32>)
  {
    exists i :: 0 <= i < |status| && (status[i] as bv32) & SC_STATUS_WDT != 0
  }

  /** A decision, or the access violation of reading CPU_Count through a null m_ApReg. */
  datatype Decision = Decided(b: BugCheck) | NullApReg

  /**
   * The reset-status rules of BuildBugCheckParams over RST_STAT byte 0, the
   * third PMIC_PON byte (PON_WARM_RESET_REASON1) and the cores' sc_status
   * words: the parameters they leave before the fallback check.
   */
  function ResetRules(s: QState): Decision
    requires Consistent(s)
  {
    var d := Defaults(s);
    if !s.progress.isRstStatBinCopied then Decided(d)
    else if RstBit(s, 0x8) then Decided(d.(p1 := ONEFOURC_PARAM1_THERMAL))
    else if s.rstStatBin[0] == 0 && s.progress.isPmicPonBinCopied && s.pmicPonBin[2] == 0x2 then
      Decided(d.(p1 := ONEFOURC_PARAM1_USER_INITIATED))
    else if RstBit(s, 0x2) then
      var w := d.(p1 := ONEFOURC_PARAM1_WATCHDOG, p2 := ONEFOURC_PARAM2_SECURE_WDOG);
      if !s.progress.isAPRegPresent || s.isAPREG64Bit then Decided(w)
      else if s.apReg.None? then NullApReg
      else if AnyWdt(s.apReg.value) then Decided(w.(p2 := ONEFOURC_PARAM2_NONSECURE_WDOG))
      else Decided(w)
    else Decided(d)
  }

  /** The decision ends before the fallback check: thermal, or a watchdog bite AP_REG does not show as non-secure. */
  predicate EndsEarly(s: QState)
    requires Consistent(s)
  {
    s.progress.isRstStatBinCopied &&
    (RstBit(s, 0x8) ||
     (RstBit(s, 0x2) && s.progress.isAPRegPresent && (s.isAPREG64Bit || (s.apReg.Some? && !AnyWdt(s.apReg.value)))))
  }

  /**
   * BuildBugCheckParams: the reset-status rules, then, unless they ended
   * the decision, the fallback rewrite.
   */
  function Decide(s: QState): Decision
    requires Consistent(s)
  {
    match ResetRules(s)
    case NullApReg => NullApReg
    case Decided(b) => Decided(if EndsEarly(s) then b else Fallback(s, b))
  }

  /** BugCheckCode is always FATAL_ABNORMAL_RESET_ERROR and P4 always keeps its default. */
  lemma CodeAndParam4Fixed(s: QState)
    requires Consistent(s)
    ensures Decide(s).Decided? ==>
              Decide(s).b.code == FATAL_ABNORMAL_RESET_ERROR &&
              Decide(s).b.p4 == (if s.progress.isDiagBufferBuilt then Trunc32(s.inMemDataInfo.dataVa) else 0xFFFF_FFFF)
  {
  }

  /** With a present AP_REG held in m_ApReg there is always a decision. */
  lemma DecidesWhenApRegHeld(s: QState)
    requires Consistent(s) && ApRegHeld(s)
    ensures Decide(s).Decided?
  {
  }

  /**
   * The rewrite happens exactly when the diag buffer shows a failed bug
   * check and the decision does not end early; it then keeps the chosen
   * trigger in P3 and the bug check code in P2. Otherwise P1 is the
   * trigger and P3 stays 0.
   */
  lemma FallbackIff(s: QState)
    requires Consistent(s) && Decide(s).Decided?
    ensures var b := Decide(s).b;
            && (b.p1 == ONEFOURC_PARAM1_FALLBACK <==> FailedBugCheck(s) && !EndsEarly(s))
            && (b.p1 == ONEFOURC_PARAM1_FALLBACK ==>
                  var t := ResetRules(s).b.p1;
                  b.p3 == t && b.p2 == BugCheckData0(s) &&
                  (t == ONEFOURC_PARAM1_UNKNOWN || t == ONEFOURC_PARAM1_USER_INITIATED || t == ONEFOURC_PARAM1_WATCHDOG))
            && (b.p1 != ONEFOURC_PARAM1_FALLBACK ==> b == ResetRules(s).b && b.p3 == 0)
  {
  }

  /** Without RST_STAT only the fallback rule can change the defaults. */
  lemma WithoutRstStat(s: QState)
    requires Consistent(s) && !s.progress.isRstStatBinCopied
    ensures Decide(s).Decided?
    ensures !FailedBugCheck(s) ==> Decide(s).b == Defaults(s)
    ensures FailedBugCheck(s) ==>
              Decide(s).b == Defaults(s).(p1 := ONEFOURC_PARAM1_FALLBACK, p2 := BugCheckData0(s), p3 := ONEFOURC_PARAM1_UNKNOWN)
  {
  }

  /** A thermal reset is reported as THERMAL with P2 and P3 0, whatever the diag buffer says. */
  lemma ThermalSkipsFallback(s: QState)
    requires Consistent(s) && s.progress.isRstStatBinCopied && RstBit(s, 0x8)
    ensures Decide(s) == Decided(BugCheck(FATAL_ABNORMAL_RESET_ERROR, ONEFOURC_PARAM1_THERMAL, 0, 0, Defaults(s).p4))
  {
  }

  /** An extended power button hold is USER_INITIATED, unless the diag buffer shows a failed bug check. */
  lemma ExtendedPowerButtonHold(s: QState)
    requires Consistent(s) && s.progress.isRstStatBinCopied && s.rstStatBin[0] == 0
    requires s.progress.isPmicPonBinCopied && s.pmicPonBin[2] == 0x2
    ensures Decide(s).Decided?
    ensures !FailedBugCheck(s) ==> Decide(s).b == Defaults(s).(p1 := ONEFOURC_PARAM1_USER_INITIATED)
    ensures FailedBugCheck(s) ==>
              Decide(s).b == Defaults(s).(p1 := ONEFOURC_PARAM1_FALLBACK, p2 := BugCheckData0(s), p3 := ONEFOURC_PARAM1_USER_INITIATED)
  {
  }

  /**
   * A watchdog bite is WATCHDOG with P2 SECURE_WDOG, and NONSECURE_WDOG
   * exactly when a legacy AP_REG shows a core with the WDT bit; a secure
   * bite seen through AP_REG is never rewritten as a fallback.
   */
  lemma WatchdogBite(s: QState)
    requires Consistent(s) && ApRegHeld(s) && s.progress.isRstStatBinCopied
    requires !RstBit(s, 0x8) && RstBit(s, 0x2)
    ensures Decide(s).Decided?
    ensures var b := Decide(s).b;
            var nonSecure := s.progress.isAPRegPresent && !s.isAPREG64Bit && AnyWdt(s.apReg.value);
            && (nonSecure && !FailedBugCheck(s) ==>
                  b == Defaults(s).(p1 := ONEFOURC_PARAM1_WATCHDOG, p2 := ONEFOURC_PARAM2_NONSECURE_WDOG))
            && (s.progress.isAPRegPresent && !nonSecure ==>
                  b == Defaults(s).(p1 := ONEFOURC_PARAM1_WATCHDOG, p2 := ONEFOURC_PARAM2_SECURE_WDOG))
            && (b.p1 == ONEFOURC_PARAM1_WATCHDOG || b.p1 == ONEFOURC_PARAM1_FALLBACK)
            && (b.p1 == ONEFOURC_PARAM1_FALLBACK ==> b.p3 == ONEFOURC_PARAM1_WATCHDOG)
  {
  }

  /**
   * As written, a legacy AP_REG that GetAPReg reports valid leaves m_ApReg
   * null, so a watchdog bite makes BuildBugCheckParams read CPU_Count
   * through a null pointer.
   */
  lemma LegacyApRegNullAsWritten(s: QState, fw: Firmware)
    requires Consistent(s) && !s.isAPREG64Bit
    requires NtSuccess(fw.apRegQuery.status) && fw.apRegQuery.address != 0 && Succeeded(fw.apRegHeaderRead.hr)
    requires BufferPrefix(fw.apRegHeaderRead.bytes, AP_REG_B_FAMILY_HEADER_SIZE, 4) == [0x51, 0x41, 0x43, 0x44]
    requires s.progress.isRstStatBinCopied && s.rstStatBin[0] == 0x2
    ensures var r := ApRegLookupAsWritten(s, fw);
            var t := r.2.(progress := r.2.progress.(isAPRegPresent := true));
            r.0 == S_OK && r.1 && Consistent(t) && !ApRegHeld(t) && Decide(t) == NullApReg
  {
    var header := BufferPrefix(fw.apRegHeaderRead.bytes, AP_REG_B_FAMILY_HEADER_SIZE, AP_REG_B_FAMILY_HEADER_SIZE);
    assert header[..4] == [0x51, 0x41, 0x43, 0x44];
    assert LE([0x51, 0x41, 0x43, 0x44]) == AP_REG_STRUCTURE_MAGIC_VALUE;
    var t := ApRegLookupAsWritten(s, fw).2;
    assert (t.rstStatBin[0] as bv8) & 0x8 == 0;
    assert (t.rstStatBin[0] as bv8) & 0x2 != 0;
  }

  // ---------------------------------------------------------------- class

  /** The QCom32 object: the provider's members and its view of DMP_CONTEXT. */
  class QCom32 {
    var dumpHeader: BugCheck
    var progress: DumpProgress
    var isAPREG64Bit: bool
    var is64Bit: bool
    var dumpInstance: u64
    var largestSvSpecificSectionSize: u64
    var apRegAddress: u64
    var apReg: Option<seq<u32>>
    var inMemDataInfo: InMemDataInfo
    var inMemDiagBuffer: Option<seq<u32>>
    var rstStatBin: seq<u8>
    var pmicPonBin: seq<u8>

    function State(): QState
      reads this
    {
      QState(dumpHeader, progress, isAPREG64Bit, is64Bit, dumpInstance, largestSvSpecificSectionSize, apRegAddress,
             apReg, inMemDataInfo, inMemDiagBuffer, rstStatBin, pmicPonBin)
    }

    predicate Valid()
      reads this
    {
      Consistent(State()) && ApRegHeld(State())
    }

    /**
     * The constructor: m_ApReg and m_InMemDiagBuffer null, m_APRegAddress
     * 0, over a context whose earlier stages have not yet found AP_REG or
     * built the diag buffer. The member arrays are not initialised, so
     * their bytes are a parameter.
     */
    constructor (header: BugCheck, ctxProgress: DumpProgress, ctxIs64Bit: bool, ctxDumpInstance: u64,
                 largestSvSize: u64, rstStat0: seq<u8>, pmicPon0: seq<u8>)
      requires !ctxProgress.isAPRegPresent && !ctxProgress.isDiagBufferBuilt
      requires |rstStat0| == QC_ADDITIONAL_DATA_VERSION1_RST_STAT_LENGTH
      requires |pmicPon0| == QC_ADDITIONAL_DATA_VERSION1_PMIC_PON_LENGTH
      ensures Valid()
      ensures State() == QState(header, ctxProgress, false, ctxIs64Bit, ctxDumpInstance, largestSvSize, 0, None,
                               ZERO_IN_MEM_DATA_INFO, None, rstStat0, pmicPon0)
    {
      dumpHeader := header;
      progress := ctxProgress;
      isAPREG64Bit := false;
      is64Bit := ctxIs64Bit;
      dumpInstance := ctxDumpInstance;
      largestSvSpecificSectionSize := largestSvSize;
      apRegAddress := 0;
      apReg := None;
      inMemDataInfo := ZERO_IN_MEM_DATA_INFO;
      inMemDiagBuffer := None;
      rstStatBin := rstStat0;
      pmicPonBin := pmicPon0;
    }

    /** GetSVSpecificInfo over the section table of the raw dump header. */
    method GetSVSpecificInfo(sections: seq<SectionHeader>, fw: Firmware) returns (result: HResult)
      requires Valid()
      modifies this`pmicPonBin, this`rstStatBin, this`progress
      ensures Valid()
      ensures (result, State()) == SvSpecificInfo(old(State()), sections, fw)
    {
      result := E_FAIL;
      if !fw.svHeapOk {
        return;
      }
      var largest := largestSvSpecificSectionSize as nat;
      ghost var s0 := State();
      var sectionIndex := 0;
      while sectionIndex < |sections|
        invariant sectionIndex <= |sections|
        invariant State() == WithCopies(s0, CopiesOf(State()))
        invariant |rstStatBin| == QC_ADDITIONAL_DATA_VERSION1_RST_STAT_LENGTH
        invariant |pmicPonBin| == QC_ADDITIONAL_DATA_VERSION1_PMIC_PON_LENGTH
        invariant SvScan(sections[sectionIndex..], fw.sectionRead, largest, CopiesOf(State()))
                  == SvScan(sections, fw.sectionRead, largest, CopiesOf(s0))
      {
        var section := sections[sectionIndex];
        if section.sectionType == RAW_DUMP_SECTION_TYPE_SV_SPECIFIC {
          var r := fw.sectionRead(section);
          if !Succeeded(r.setPos) {
            SvScanStops(sections, sectionIndex, fw.sectionRead, largest, CopiesOf(State()), r.setPos);
            result := r.setPos;
            return;
          }
          if !Succeeded(r.read) {
            SvScanStops(sections, sectionIndex, fw.sectionRead, largest, CopiesOf(State()), r.read);
            result := r.read;
            return;
          }
          SvScanCopies(sections, sectionIndex, fw.sectionRead, largest, CopiesOf(State()));
          CopySvSection(section.name, r.data, largest);
        } else {
          SvScanSkips(sections, sectionIndex, fw.sectionRead, largest, CopiesOf(State()));
        }
        sectionIndex := sectionIndex + 1;
      }
      assert sections[sectionIndex..] == [];
      result := S_OK;
    }

    /** The name lookup and copy of one SV specific section read into a buffer of `largest` bytes. */
    method CopySvSection(name: Name20, data: seq<u8>, largest: nat)
      requires |rstStatBin| == QC_ADDITIONAL_DATA_VERSION1_RST_STAT_LENGTH
      requires |pmicPonBin| == QC_ADDITIONAL_DATA_VERSION1_PMIC_PON_LENGTH
      modifies this`pmicPonBin, this`rstStatBin, this`progress
      ensures CopiesOf(State()) == CopySection(old(CopiesOf(State())), name, data, largest)
      ensures State() == WithCopies(old(State()), CopiesOf(State()))
      ensures |rstStatBin| == QC_ADDITIONAL_DATA_VERSION1_RST_STAT_LENGTH
      ensures |pmicPonBin| == QC_ADDITIONAL_DATA_VERSION1_PMIC_PON_LENGTH
    {
      var guidToNameIndex := SvGuidTable.FindGuidIndex(SvGuidTable.GUID_TO_NAME, name);
      var guid := SvGuidTable.GUID_TO_NAME[guidToNameIndex].guid;
      if guid == PMIC_PON_GUID {
        pmicPonBin := BufferPrefix(data, largest, QC_ADDITIONAL_DATA_VERSION1_PMIC_PON_LENGTH);
        progress := progress.(isPmicPonBinCopied := true);
      } else if guid == RST_STAT_GUID {
        rstStatBin := BufferPrefix(data, largest, QC_ADDITIONAL_DATA_VERSION1_RST_STAT_LENGTH);
        progress := progress.(isRstStatBinCopied := true);
      }
    }

    /** GetAPReg, keeping the CPU_STATUS words of AP_REG as m_ApReg. */
    method GetAPReg(fw: Firmware) returns (result: HResult, isApRegValid: bool)
      requires Valid()
      modifies this`apRegAddress, this`apReg, this`isAPREG64Bit
      ensures (result, isApRegValid, State()) == ApRegLookup(old(State()), fw)
    {
      isApRegValid := false;
      apRegAddress := 0;
      apReg := None;
      if !NtSuccess(fw.apRegQuery.status) {
        return FromNt(fw.apRegQuery.status), false;
      }
      apRegAddress := fw.apRegQuery.address;
      if apRegAddress == 0 {
        return E_UNEXPECTED, false;
      }
      if !Succeeded(fw.apRegHeaderRead.hr) {
        return fw.apRegHeaderRead.hr, false;
      }
      var apRegHeader := BufferPrefix(fw.apRegHeaderRead.bytes, AP_REG_B_FAMILY_HEADER_SIZE, AP_REG_B_FAMILY_HEADER_SIZE);
      if U32At(apRegHeader, 0) != AP_REG_STRUCTURE_MAGIC_VALUE {
        isAPREG64Bit := true;
      }
      var cpuCount := U32At(apRegHeader, 8);
      if !Succeeded(fw.apRegStatusRead.hr) {
        return fw.apRegStatusRead.hr, false;
      }
      apReg := Some(Words(fw.apRegStatusRead.bytes, cpuCount as nat));
      isApRegValid := true;
      result := S_OK;
    }

    /** GetInMemDataInfo. */
    method GetInMemDataInfo(q: InMemQuery, resetStatus: NtStatus) returns (result: HResult)
      modifies this`progress, this`inMemDataInfo
      ensures (result, State()) == InMemDataLookup(old(State()), q, resetStatus)
    {
      progress := progress.(isInMemDataInfoFound := false);
      inMemDataInfo := ZERO_IN_MEM_DATA_INFO;
      if !NtSuccess(q.status) {
        return FromNt(q.status);
      }
      inMemDataInfo := q.info;
      if q.dataSize != IN_MEM_DATA_INFO_SIZE {
        return E_BAD_DATA;
      }
      if !NtSuccess(resetStatus) {
        return FromNt(resetStatus);
      }
      if inMemDataInfo.size == 0 {
        return E_BAD_DATA;
      }
      if inMemDataInfo.dataPa == 0 {
        return E_BAD_DATA;
      }
      if inMemDataInfo.dataVa == 0 {
        return E_BAD_DATA;
      }
      progress := progress.(isInMemDataInfoFound := true);
      result := S_OK;
    }

    /** BuildDiagBuffer. */
    method BuildDiagBuffer(fw: Firmware) returns (result: HResult)
      requires Valid()
      modifies this`progress, this`inMemDataInfo, this`inMemDiagBuffer
      ensures Valid()
      ensures (result, State()) == DiagBufferBuild(old(State()), fw)
    {
      DiagBufferBuilt(State(), fw);
      progress := progress.(isDiagBufferBuilt := false);
      result := GetInMemDataInfo(fw.inMemQuery, fw.inMemReset);
      if !Succeeded(result) {
        return;
      }
      if inMemDataInfo.size < INMEM_DIAG_BUFFER_SIZE {
        return E_UNEXPECTED;
      }
      if !fw.diagHeapOk {
        return;
      }
      if !Succeeded(fw.signatureRead.hr) {
        return fw.signatureRead.hr;
      }
      var signature := BufferPrefix(fw.signatureRead.bytes, ONEFOURC_DIAG_BUFFER_SIGNATURE_LENGTH,
                                    ONEFOURC_DIAG_BUFFER_SIGNATURE_LENGTH);
      if signature != ONEFOURC_DIAG_BUFFER_SIGNATURE {
        return E_BAD_DATA;
      }
      if !Succeeded(fw.bugCheckRead.hr) {
        return fw.bugCheckRead.hr;
      }
      var bugCheckData := Words(fw.bugCheckRead.bytes, ONEFOURC_DIAG_BUFFER_BUGCHECK_DATA_COUNT);
      result := fw.dummyRead.hr;
      inMemDiagBuffer := Some(bugCheckData);
      progress := progress.(isDiagBufferBuilt := true);
    }

    /** ProcessSVSpecific. */
    method ProcessSVSpecific(sections: seq<SectionHeader>, fw: Firmware) returns (result: HResult)
      requires Valid() && !progress.isAPRegPresent
      modifies this
      ensures Valid()
      ensures (result, State()) == ProcessSv(old(State()), sections, fw)
    {
      ProcessSvOutcome(State(), sections, fw);
      result := GetSVSpecificInfo(sections, fw);
      if !Succeeded(result) {
        return;
      }
      ghost var s1 := State();
      var validateResult;
      result, validateResult := GetAPReg(fw);
      if validateResult {
        progress := progress.(isAPRegPresent := true);
      }
      if !Succeeded(result) {
        return;
      }
      ApRegLookupValid(s1, fw);
      var diagResult := BuildDiagBuffer(fw);
      result := S_OK;
    }

    /** BuildBugCheckParams: DumpHeader gets the code and parameters the decision tree chooses. */
    method BuildBugCheckParams()
      requires Valid()
      modifies this`dumpHeader
      ensures Decide(old(State())) == Decided(dumpHeader)
    {
      dumpHeader := dumpHeader.(code := FATAL_ABNORMAL_RESET_ERROR);
      dumpHeader := dumpHeader.(p1 := ONEFOURC_PARAM1_UNKNOWN);
      dumpHeader := dumpHeader.(p2 := ONEFOURC_VERSION1_PARAM2_DEFAULT);
      dumpHeader := dumpHeader.(p3 := ONEFOURC_VERSION1_PARAM3_DEFAULT);
      dumpHeader := dumpHeader.(p4 := if progress.isDiagBufferBuilt then Trunc32(inMemDataInfo.dataVa)
                                      else ONEFOURC_VERSION1_PARAM4_DEFAULT);
      var checkForFallback := ApplyResetRules();
      if checkForFallback && progress.isDiagBufferBuilt {
        var code := inMemDiagBuffer.value[0];
        if code != FATAL_ABNORMAL_RESET_ERROR && code != 0 {
          dumpHeader := dumpHeader.(p3 := dumpHeader.p1);
          dumpHeader := dumpHeader.(p2 := code);
          dumpHeader := dumpHeader.(p1 := ONEFOURC_PARAM1_FALLBACK);
        }
      }
    }

    /** The reset-status part of BuildBugCheckParams, from the defaults; false where it jumps to Exit. */
    method ApplyResetRules() returns (checkForFallback: bool)
      requires Valid() && dumpHeader == Defaults(State())
      modifies this`dumpHeader
      ensures ResetRules(old(State())) == Decided(dumpHeader)
      ensures checkForFallback <==> !EndsEarly(old(State()))
    {
      checkForFallback := true;
      if !progress.isRstStatBinCopied {
        return;
      }
      var rst := rstStatBin[0] as bv8;
      if rst & 0x8 != 0 {
        dumpHeader := dumpHeader.(p1 := ONEFOURC_PARAM1_THERMAL);
        return false;
      }
      if rstStatBin[0] == 0 && progress.isPmicPonBinCopied && pmicPonBin[2] == 0x2 {
        dumpHeader := dumpHeader.(p1 := ONEFOURC_PARAM1_USER_INITIATED);
        return;
      }
      if rst & 0x2 != 0 {
        dumpHeader := dumpHeader.(p1 := ONEFOURC_PARAM1_WATCHDOG);
        dumpHeader := dumpHeader.(p2 := ONEFOURC_PARAM2_SECURE_WDOG);
        if progress.isAPRegPresent {
          if !isAPREG64Bit {
            var found := FindWdtCore(apReg.value);
            if found {
              dumpHeader := dumpHeader.(p2 := ONEFOURC_PARAM2_NONSECURE_WDOG);
              return;
            }
          }
          return false;
        }
      }
    }

    /**
     * BuildInfoBuffer: a null record is E_FAIL; otherwise the record gets
     * the ARM or ARM64 type, the dump instance, the AP_REG and diag buffer
     * addresses and the bug check, and keeps its signature, version and
     * payload size.
     */
    method BuildInfoBuffer(info: Option<DeviceSpecific.DeviceSpecificInfo>)
      returns (hr: HResult, info': Option<DeviceSpecific.DeviceSpecificInfo>)
      ensures hr == E_FAIL <==> info.None?
      ensures hr == S_OK <==> info.Some?
      ensures info'.Some? <==> info.Some?
      ensures info.Some? ==>
                var r := info'.value;
                && DeviceSpecific.IsArmType(r.deviceType)
                && (r.deviceType == DeviceSpecific.PROCESSOR_ARCHITECTURE_ARM64 <==> is64Bit)
                && r.signature == info.value.signature && r.version == info.value.version
                && r.payloadSize == info.value.payloadSize
                && r.dumpHeaderInstanceId == dumpInstance
                && r.apRegPa == apRegAddress
                && r.va == inMemDataInfo.dataVa && r.pa == inMemDataInfo.dataPa && r.size == inMemDataInfo.size
                && r.bugCheckCode == dumpHeader.code
                && r.bugCheckParam1 == dumpHeader.p1 && r.bugCheckParam2 == dumpHeader.p2
                && r.bugCheckParam3 == dumpHeader.p3 && r.bugCheckParam4 == dumpHeader.p4
    {
      if info.None? {
        return E_FAIL, None;
      }
      var r := info.value;
      r := r.(deviceType := if is64Bit then DeviceSpecific.PROCESSOR_ARCHITECTURE_ARM64
                            else DeviceSpecific.PROCESSOR_ARCHITECTURE_ARM);
      r := r.(dumpHeaderInstanceId := dumpInstance, apRegPa := apRegAddress);
      r := r.(va := inMemDataInfo.dataVa, pa := inMemDataInfo.dataPa, size := inMemDataInfo.size);
      r := r.(bugCheckCode := dumpHeader.code);
      r := r.(bugCheckParam1 := dumpHeader.p1, bugCheckParam2 := dumpHeader.p2);
      r := r.(bugCheckParam3 := dumpHeader.p3, bugCheckParam4 := dumpHeader.p4);
      return S_OK, Some(r);
    }
  }

  /** The loop over the cores' sc_status words: is there one with the WDT bit? */
  method FindWdtCore(cpuStatus: seq<u32>) returns (found: bool)
    ensures found <==> AnyWdt(cpuStatus)
  {
    var cpuCount := |cpuStatus|;
    var index := 0;
    while index < cpuCount
      invariant index <= cpuCount
      invariant forall j :: 0 <= j < index ==> (cpuStatus[j] as bv32) & SC_STATUS_WDT == 0
    {
      if (cpuStatus[index] as bv32) & SC_STATUS_WDT != 0 {
        return true;
      }
      index := index + 1;
    }
    return false;
  }
}
