// The raw dump generator's default SV specific sections
// (tools/makeRawDump/processSV.cpp, processSV.h): the "SV_<name>" section
// names and the SV list built from the SV section table of
// common/lib/SV_Specific.cpp.
module ProcessSv {
  import opened Machine
  import opened Status
  import opened RawDumpDefs
  import opened MakeDumpDefs
  import opened SvPlan
  import ProcessDdr

  /** SV_SPECIFIC_GUID_TO_NAME: a GUID, an ASCII name and a default size. */
  datatype SvRow = SvRow(guid: Guid, name: string, size: u64)

  const NULL_GUID: Guid := Guid(0, 0, 0, [0, 0, 0, 0, 0, 0, 0, 0])
  const SV_SECTION_AP_REG_GUID: Guid := Guid(0xAB3A051F, 0xEF0B, 0x4A5F, [0xA7, 0x9A, 0x80, 0xC2, 0x43, 0xBA, 0x08, 0x48])

  /** SvSectionTable (common/lib/SV_Specific.cpp) with the GUIDs of GUIDDefs.h and the sizes of SV_Specific.h. */
  const SV_SECTION_TABLE: seq<SvRow> := [
    SvRow(SV_SECTION_AP_REG_GUID, "AP_REG", 0x1000),
    SvRow(Guid(0xD0A267A1, 0x9CA5, 0x471D, [0x8E, 0x9C, 0x79, 0xC9, 0x86, 0xBE, 0x77, 0x77]), "OCIMEM.BIN", 0x10000),
    SvRow(Guid(0x100B990B, 0x0F9B, 0x40B3, [0x82, 0xEF, 0x06, 0x61, 0x4F, 0x53, 0x05, 0xFE]), "CODERAM.BIN", 0x28000),
    SvRow(Guid(0x82233308, 0xCE47, 0x4D52, [0x92, 0x11, 0xF4, 0x2E, 0x89, 0x61, 0x8A, 0xF4]), "DATARAM.BIN", 0x14000),
    SvRow(Guid(0x91A8C35C, 0xA340, 0x4F2E, [0xB7, 0x27, 0x65, 0x39, 0x47, 0xDB, 0x9C, 0x76]), "MSGRAM.BIN", 0x4000),
    SvRow(Guid(0x877F61E0, 0xA870, 0x4635, [0x9F, 0x41, 0x33, 0x00, 0x53, 0x20, 0x26, 0x05]), "LPM.BIN", 0x10000),
    SvRow(NULL_GUID, "IPA_SRAM.BIN", 0x3efc),
    SvRow(NULL_GUID, "IPA_MBOX.BIN", 0xfc),
    SvRow(NULL_GUID, "IPA_IRAM.BIN", 0x2000),
    SvRow(NULL_GUID, "IPA_DRAM.BIN", 0x3efc),
    SvRow(Guid(0x10D25EDD, 0x1558, 0x4B88, [0xAB, 0x5C, 0xE8, 0x1E, 0x7F, 0x47, 0xDA, 0xD9]), "PMIC_PON.BIN", 8),
    SvRow(Guid(0xD0352E48, 0xE359, 0x459E, [0x9B, 0xBF, 0x2E, 0x16, 0xE6, 0x28, 0xAC, 0xFB]), "RST_STAT.BIN", 4),
    SvRow(Guid(0x62fb2678, 0x933f, 0x4177, [0x86, 0x29, 0xff, 0x3f, 0x70, 0x55, 0x02, 0xe3]), "DDR_DATA.BIN", 0x100000),
    SvRow(Guid(0x066A56C8, 0xCE2A, 0x4686, [0xB6, 0x10, 0x5B, 0xFC, 0x22, 0xD0, 0xC7, 0xAB]), "load.cmm", 0x510),
    SvRow(Guid(0x0df632e9, 0x5c48, 0x43aa, [0xb8, 0xbd, 0x5f, 0xf6, 0x18, 0x05, 0x02, 0x5f]), "rawdump.bin", 0x2000_0000),
    SvRow(Guid(0x6901D825, 0x0E25, 0x4D6C, [0x8C, 0x11, 0xE0, 0xAB, 0x2E, 0x98, 0xCA, 0xEF]), "UNKNOWN", 0)
  ]

  /** GetSvTableSize(), and SV_ROWS_TO_USE = SV_SPECIFIC_TABLE_SIZE - 3. */
  const SV_SPECIFIC_TABLE_SIZE: nat := 16
  const SV_ROWS_TO_USE: nat := SV_SPECIFIC_TABLE_SIZE - 3

  const SV_FILE_PREFIX: string := "SV_"

  lemma TableSize()
    ensures |SV_SECTION_TABLE| == SV_SPECIFIC_TABLE_SIZE
  {
  }

  /** Only the first row of the table carries the AP_REG GUID. */
  lemma OnlyRowZeroIsApReg(row: nat)
    requires row < |SV_SECTION_TABLE|
    ensures (SV_SECTION_TABLE[row].guid == SV_SECTION_AP_REG_GUID) <==> row == 0
  {
    var t := SV_SECTION_TABLE;
    assert t[1].guid.data1 != 0xAB3A051F && t[2].guid.data1 != 0xAB3A051F && t[3].guid.data1 != 0xAB3A051F;
    assert t[4].guid.data1 != 0xAB3A051F && t[5].guid.data1 != 0xAB3A051F && t[6].guid.data1 != 0xAB3A051F;
    assert t[7].guid.data1 != 0xAB3A051F && t[8].guid.data1 != 0xAB3A051F && t[9].guid.data1 != 0xAB3A051F;
    assert t[10].guid.data1 != 0xAB3A051F && t[11].guid.data1 != 0xAB3A051F && t[12].guid.data1 != 0xAB3A051F;
    assert t[13].guid.data1 != 0xAB3A051F && t[14].guid.data1 != 0xAB3A051F && t[15].guid.data1 != 0xAB3A051F;
  }

  /** An ASCII string without NUL characters: what strlen and "%s" see in full. */
  predicate PlainAscii(s: string)
  {
    forall i :: 0 <= i < |s| ==> 0 < s[i] as int < 128
  }

  /** Every row name is plain ASCII of at most 12 characters. */
  lemma RowNamesShort(row: nat)
    requires row < |SV_SECTION_TABLE|
    ensures |SV_SECTION_TABLE[row].name| <= 12 && PlainAscii(SV_SECTION_TABLE[row].name)
  {
    RowFacts(row);
  }

  /** The name "SV_" + the row name, as sprintf("%s%s") writes it. */
  function SvName(row: nat): (s: string)
    requires row < |SV_SECTION_TABLE|
    ensures |s| == 3 + |SV_SECTION_TABLE[row].name| && s[..3] == SV_FILE_PREFIX && s[3..] == SV_SECTION_TABLE[row].name
    ensures FitsName(s) && PlainAscii(s)
  {
    RowNamesShort(row);
    SV_FILE_PREFIX + SV_SECTION_TABLE[row].name
  }

  /**
   * MakeSVNameString for table row idx with a Name buffer of nameLen bytes:
   * E_INVALIDARG when nameLen exceeds RAW_DUMP_SECTION_HEADER_NAME_LENGTH or
   * when strlen(name) + sizeof "SV_" (four bytes, with the NUL) does not fit
   * in it; otherwise the zero-padded "SV_<name>".
   */
  function MakeSVNameString(nameLen: nat, idx: nat): (r: (HResult, Option<Name20>))
    requires idx < |SV_SECTION_TABLE|
    ensures r.0 == S_OK <==> nameLen <= RAW_DUMP_SECTION_HEADER_NAME_LENGTH
                              && |SV_SECTION_TABLE[idx].name| + 4 <= RAW_DUMP_SECTION_HEADER_NAME_LENGTH
    ensures r.0 != S_OK ==> r.0 == E_INVALIDARG && r.1 == None
    ensures r.0 == S_OK ==> r.1 == Some(NameField(SvName(idx)))
  {
    if RAW_DUMP_SECTION_HEADER_NAME_LENGTH < nameLen
       || |SV_SECTION_TABLE[idx].name| + |SV_FILE_PREFIX| + 1 > RAW_DUMP_SECTION_HEADER_NAME_LENGTH
    then (E_INVALIDARG, None)
    else (S_OK, Some(NameField(SvName(idx))))
  }

  /** With the 20-byte Name field every row of the table gets its name. */
  lemma EveryRowIsNamed(idx: nat)
    requires idx < |SV_SECTION_TABLE|
    ensures MakeSVNameString(RAW_DUMP_SECTION_HEADER_NAME_LENGTH, idx).0 == S_OK
  {
    RowNamesShort(idx);
  }

  /** The table row a row name belongs to, told apart by its first and fifth characters. */
  function RowOfName(s: string): int
  {
    if |s| < 5 then -1
    else
      match (s[0], s[4])
      case ('A', 'E') => 0
      case ('O', 'E') => 1
      case ('C', 'R') => 2
      case ('D', 'R') => 3
      case ('M', 'A') => 4
      case ('L', 'B') => 5
      case ('I', 'S') => 6
      case ('I', 'M') => 7
      case ('I', 'I') => 8
      case ('I', 'D') => 9
      case ('P', '_') => 10
      case ('R', 'S') => 11
      case ('D', 'D') => 12
      case ('l', '.') => 13
      case ('r', 'u') => 14
      case ('U', 'O') => 15
      case _ => -1
  }

  /** What holds of the name of each row: short, plain ASCII, and told apart by RowOfName. */
  predicate RowNameOk(row: nat)
    requires row < |SV_SECTION_TABLE|
  {
    var n := SV_SECTION_TABLE[row].name;
    |n| <= 12 && PlainAscii(n) && RowOfName(n) == row
  }

  /** Each row's name, checked on its literal one row at a time. */
  lemma RowFacts(row: nat)
    requires row < |SV_SECTION_TABLE|
    ensures RowNameOk(row)
  {
    match row
    case 0 => RowFacts0();
    case 1 => RowFacts1();
    case 2 => RowFacts2();
    case 3 => RowFacts3();
    case 4 => RowFacts4();
    case 5 => RowFacts5();
    case 6 => RowFacts6();
    case 7 => RowFacts7();
    case 8 => RowFacts8();
    case 9 => RowFacts9();
    case 10 => RowFacts10();
    case 11 => RowFacts11();
    case 12 => RowFacts12();
    case 13 => RowFacts13();
    case 14 => RowFacts14();
    case _ => RowFacts15();
  }

  lemma RowFacts0()
    ensures RowNameOk(0)
  {
  }

  lemma RowFacts1()
    ensures RowNameOk(1)
  {
  }

  lemma RowFacts2()
    ensures RowNameOk(2)
  {
  }

  lemma RowFacts3()
    ensures RowNameOk(3)
  {
  }

  lemma RowFacts4()
    ensures RowNameOk(4)
  {
  }

  lemma RowFacts5()
    ensures RowNameOk(5)
  {
  }

  lemma RowFacts6()
    ensures RowNameOk(6)
  {
  }

  lemma RowFacts7()
    ensures RowNameOk(7)
  {
  }

  lemma RowFacts8()
    ensures RowNameOk(8)
  {
  }

  lemma RowFacts9()
    ensures RowNameOk(9)
  {
  }

  lemma RowFacts10()
    ensures RowNameOk(10)
  {
  }

  lemma RowFacts11()
    ensures RowNameOk(11)
  {
  }

  lemma RowFacts12()
    ensures RowNameOk(12)
  {
  }

  lemma RowFacts13()
    ensures RowNameOk(13)
  {
  }

  lemma RowFacts14()
    ensures RowNameOk(14)
  {
  }

  lemma RowFacts15()
    ensures RowNameOk(15)
  {
  }

  lemma RowOfNameInverts(row: nat)
    requires row < |SV_SECTION_TABLE|
    ensures RowOfName(SV_SECTION_TABLE[row].name) == row
  {
    RowFacts(row);
  }

  /** Different rows get different Name fields. */
  lemma SvNamesDistinct(a: nat, b: nat)
    requires a < |SV_SECTION_TABLE| && b < |SV_SECTION_TABLE| && a != b
    ensures NameField(SvName(a)) != NameField(SvName(b))
  {
    if NameField(SvName(a)) == NameField(SvName(b)) {
      ProcessDdr.NameFieldInjective(SvName(a), SvName(b));
      assert SvName(a)[3..] == SvName(b)[3..];
      RowOfNameInverts(a);
      RowOfNameInverts(b);
      assert false;
    }
  }

  /** The entry UpdateSVWithDefault builds from table row `row` with the given Type. */
  function SvEntry(row: nat, sectionType: u32): (h: SectionHeader)
    requires row < |SV_SECTION_TABLE|
  {
    NewSection(sectionType, 0, SV_SECTION_TABLE[row].size, NameField(SvName(row)))
  }

  /** nEntries: SV_ROWS_TO_USE, plus the AP_REG row unless it is excluded. */
  function SvEntryCount(excludeApReg: bool): nat
  {
    SV_ROWS_TO_USE + (if excludeApReg then 0 else 1)
  }

  /**
   * Entry i of the SV list: table row i, or row i + 1 once the AP_REG row
   * is skipped. The Type comes from the AP_REG test made before the skip,
   * so entry 0 is CPU_CONTEXT in both cases, and all others SV_SPECIFIC.
   */
  function SvListEntry(i: nat, excludeApReg: bool): (h: SectionHeader)
    requires i < SvEntryCount(excludeApReg)
  {
    SvEntry(if excludeApReg then i + 1 else i,
            if i == 0 then RAW_DUMP_SECTION_TYPE_CPU_CONTEXT else RAW_DUMP_SECTION_TYPE_SV_SPECIFIC)
  }

  /**
   * UpdateSVWithDefault (the list is never null here and allocation does not
   * fail). The list grows to at least nEntries slots; slot i < nEntries is
   * overwritten with SvListEntry(i), and any slot beyond keeps its entry.
   */
  method UpdateSVWithDefault(list: SectionList, excludeApReg: bool) returns (hr: HResult, list': SectionList)
    ensures hr == S_OK && |list'| == Max(|list|, SvEntryCount(excludeApReg))
    ensures forall i :: 0 <= i < SvEntryCount(excludeApReg) ==> list'[i] == Some(SvListEntry(i, excludeApReg))
    ensures forall i :: SvEntryCount(excludeApReg) <= i < |list| ==> list'[i] == list[i]
  {
    var nEntries := SvEntryCount(excludeApReg);
    list' := Resize(list, nEntries);
    hr := S_OK;
    var tableRow := 0;
    var i := 0;
    while i < nEntries
      invariant 0 <= i <= nEntries && |list'| == Max(|list|, nEntries)
      invariant tableRow == if excludeApReg && i > 0 then i + 1 else i
      invariant forall k :: 0 <= k < i ==> list'[k] == Some(SvListEntry(k, excludeApReg))
      invariant forall k :: nEntries <= k < |list| ==> list'[k] == list[k]
    {
      OnlyRowZeroIsApReg(tableRow);
      var isApRegSection := SV_SECTION_TABLE[tableRow].guid == SV_SECTION_AP_REG_GUID;
      if isApRegSection && excludeApReg {
        tableRow := tableRow + 1;
      }
      EveryRowIsNamed(tableRow);
      var (nameHr, name) := MakeSVNameString(RAW_DUMP_SECTION_HEADER_NAME_LENGTH, tableRow);
      if Succeeded(nameHr) {
        var t := if isApRegSection then RAW_DUMP_SECTION_TYPE_CPU_CONTEXT else RAW_DUMP_SECTION_TYPE_SV_SPECIFIC;
        list' := list'[i := Some(NewSection(t, 0, SV_SECTION_TABLE[tableRow].size, name.value))];
      }
      i := i + 1;
      tableRow := tableRow + 1;
    }
  }

  /**
   * The SV list carries one CPU_CONTEXT entry, the first, whatever the
   * flag: with excludeApReg it is the OCIMEM.BIN row under the CPU_CONTEXT
   * type, and no entry is named for AP_REG.
   */
  lemma ExcludedApRegKeepsCpuType(i: nat)
    requires i < SvEntryCount(true)
    ensures (SvListEntry(i, true).sectionType == RAW_DUMP_SECTION_TYPE_CPU_CONTEXT) <==> i == 0
    ensures SvListEntry(0, true).name == NameField(SvName(1)) && SvListEntry(0, true).size == 0x10000
    ensures SvListEntry(i, true).name != NameField(SvName(0))
  {
    SvNamesDistinct(i + 1, 0);
  }

  /** Without the flag, entry i is table row i, and only the AP_REG entry is CPU_CONTEXT. */
  lemma IncludedApRegFollowsTable(i: nat)
    requires i < SvEntryCount(false)
    ensures SvListEntry(i, false).name == NameField(SvName(i)) && SvListEntry(i, false).size == SV_SECTION_TABLE[i].size
    ensures (SvListEntry(i, false).sectionType == RAW_DUMP_SECTION_TYPE_CPU_CONTEXT)
              <==> SV_SECTION_TABLE[i].guid == SV_SECTION_AP_REG_GUID
  {
    OnlyRowZeroIsApReg(i);
  }

  /** The SV entries have pairwise different names. */
  lemma SvListNamesDistinct(i: nat, j: nat, excludeApReg: bool)
    requires i < SvEntryCount(excludeApReg) && j < SvEntryCount(excludeApReg) && i != j
    ensures SvListEntry(i, excludeApReg).name != SvListEntry(j, excludeApReg).name
  {
    var ri := if excludeApReg then i + 1 else i;
    var rj := if excludeApReg then j + 1 else j;
    assert SvListEntry(i, excludeApReg).name == NameField(SvName(ri));
    assert SvListEntry(j, excludeApReg).name == NameField(SvName(rj));
    SvNamesDistinct(ri, rj);
  }
}
