// The table that gives each SV specific section of a raw dump the GUID its
// blob is tagged with (GUIDToName, raw2dump/src/WriteSVSections.cpp). A
// section whose 20-byte name is not in the table is tagged UNKNOWN.
module SvGuidTable {
  import opened Machine
  import opened RawDumpDefs
  import opened SvPlan

  datatype GuidName = GuidName(guid: Guid, name: Name20)

  /** The bytes of an ASCII name, zero-padded to RAW_DUMP_SECTION_HEADER_NAME_LENGTH. */
  function Padded(s: string): (r: Name20)
    requires |s| <= 20 && forall i :: 0 <= i < |s| ==> s[i] as int < 256
    ensures r[..|s|] == seq(|s|, i requires 0 <= i < |s| => s[i] as int) && r[|s|..] == seq(20 - |s|, _ => 0)
  {
    seq(20, i requires 0 <= i < 20 => if i < |s| then s[i] as int else 0)
  }

  /** GUIDToName; UNKNOWN must be the last entry. */
  const GUID_TO_NAME: seq<GuidName> := [
    GuidName(Guid(0xAB3A051F, 0xEF0B, 0x4A5F, [0xA7, 0x9A, 0x80, 0xC2, 0x43, 0xBA, 0x08, 0x48]), Padded("AP_REG")),
    GuidName(Guid(0xD0A267A1, 0x9CA5, 0x471D, [0x8E, 0x9C, 0x79, 0xC9, 0x86, 0xBE, 0x77, 0x77]), Padded("OCIMEM.BIN")),
    GuidName(Guid(0x100B990B, 0x0F9B, 0x40B3, [0x82, 0xEF, 0x06, 0x61, 0x4F, 0x53, 0x05, 0xFE]), Padded("CODERAM.BIN")),
    GuidName(Guid(0x82233308, 0xCE47, 0x4D52, [0x92, 0x11, 0xF4, 0x2E, 0x89, 0x61, 0x8A, 0xF4]), Padded("DATARAM.BIN")),
    GuidName(Guid(0x91A8C35C, 0xA340, 0x4F2E, [0xB7, 0x27, 0x65, 0x39, 0x47, 0xDB, 0x9C, 0x76]), Padded("MSGRAM.BIN")),
    GuidName(Guid(0x877F61E0, 0xA870, 0x4635, [0x9F, 0x41, 0x33, 0x00, 0x53, 0x20, 0x26, 0x05]), Padded("LPM.BIN")),
    GuidName(Guid(0x10D25EDD, 0x1558, 0x4B88, [0xAB, 0x5C, 0xE8, 0x1E, 0x7F, 0x47, 0xDA, 0xD9]), Padded("PMIC_PON.BIN")),
    GuidName(Guid(0xD0352E48, 0xE359, 0x459E, [0x9B, 0xBF, 0x2E, 0x16, 0xE6, 0x28, 0xAC, 0xFB]), Padded("RST_STAT.BIN")),
    GuidName(Guid(0x066A56C8, 0xCE2A, 0x4686, [0xB6, 0x10, 0x5B, 0xFC, 0x22, 0xD0, 0xC7, 0xAB]), Padded("load.cmm")),
    GuidName(Guid(0x0df632e9, 0x5c48, 0x43aa, [0xb8, 0xbd, 0x5f, 0xf6, 0x18, 0x05, 0x02, 0x5f]), Padded("rawdump.bin")),
    GuidName(Guid(0x62fb2678, 0x933f, 0x4177, [0x86, 0x29, 0xff, 0x3f, 0x70, 0x55, 0x02, 0xe3]), Padded("DDR_DATA.BIN")),
    GuidName(Guid(0x6901D825, 0x0E25, 0x4D6C, [0x8C, 0x11, 0xE0, 0xAB, 0x2E, 0x98, 0xCA, 0xEF]), Padded("UNKNOWN"))
  ]

  const UNKNOWN_INDEX: nat := 11

  /** The index of the first entry of `table` from `i` on whose name is `name`, or the last entry's. */
  function IndexFrom(table: seq<GuidName>, name: Name20, i: nat): (k: nat)
    requires 0 < |table| && i <= |table|
    ensures k < |table|
    ensures (exists j :: i <= j < |table| && table[j].name == name) ==>
              table[k].name == name && forall j :: i <= j < k ==> table[j].name != name
    ensures (forall j :: i <= j < |table| ==> table[j].name != name) ==> k == |table| - 1
    decreases |table| - i
  {
    if i == |table| then |table| - 1
    else if table[i].name == name then i
    else IndexFrom(table, name, i + 1)
  }

  /**
   * The GUIDToName entry a section name selects: the first entry whose
   * name equals it byte for byte, or, when none does, the last (UNKNOWN).
   */
  function GuidIndexOf(name: Name20): (k: nat)
    ensures k < |GUID_TO_NAME|
    ensures (exists j :: 0 <= j < |GUID_TO_NAME| && GUID_TO_NAME[j].name == name) ==>
              GUID_TO_NAME[k].name == name && forall j :: 0 <= j < k ==> GUID_TO_NAME[j].name != name
    ensures (forall j :: 0 <= j < |GUID_TO_NAME| ==> GUID_TO_NAME[j].name != name) ==> k == UNKNOWN_INDEX
  {
    IndexFrom(GUID_TO_NAME, name, 0)
  }

  /**
   * The GUID a GUIDToName-shaped table gives a section name: that of the
   * first entry with the name, or of the last entry.
   */
  function TagOf(table: seq<GuidName>, name: Name20): Guid
    requires 0 < |table|
  {
    if |table| == 1 || table[0].name == name then table[0].guid else TagOf(table[1..], name)
  }

  lemma {:induction false} TagOfIndex(table: seq<GuidName>, name: Name20, i: nat)
    requires i < |table|
    ensures TagOf(table[i..], name) == table[IndexFrom(table, name, i)].guid
    decreases |table| - i
  {
    if i + 1 < |table| && table[i].name != name {
      TagOfIndex(table, name, i + 1);
      assert table[i..][1..] == table[i + 1..];
    }
  }

  /** The search of WriteSVSpecific over GUIDToName, with its foundName flag. */
  method FindGuidIndex(table: seq<GuidName>, name: Name20) returns (guidToNameIndex: nat)
    requires 0 < |table|
    ensures guidToNameIndex == IndexFrom(table, name, 0)
  {
    var foundName := false;
    var guidToNameTableSize := |table|;
    guidToNameIndex := 0;
    while guidToNameIndex < guidToNameTableSize
      invariant guidToNameIndex <= guidToNameTableSize
      invariant IndexFrom(table, name, guidToNameIndex) == IndexFrom(table, name, 0)
    {
      if table[guidToNameIndex].name == name {
        foundName := true;
        break;
      }
      guidToNameIndex := guidToNameIndex + 1;
    }
    if !foundName {
      guidToNameIndex := guidToNameTableSize - 1;
    }
  }

  /** No two entries of the table share a name. */
  lemma NamesDistinct()
    ensures forall i, j :: 0 <= i < j < |GUID_TO_NAME| ==> GUID_TO_NAME[i].name != GUID_TO_NAME[j].name
  {
    var n := GUID_TO_NAME;
    forall i, j | 0 <= i < j < |n|
      ensures n[i].name != n[j].name
    {
      assert n[i].name[0] != n[j].name[0] || n[i].name[1] != n[j].name[1];
    }
  }

  /** Every name of the table selects its own entry, so its section gets that entry's GUID. */
  lemma GuidIndexOfListed(j: nat)
    requires j < |GUID_TO_NAME|
    ensures GuidIndexOf(GUID_TO_NAME[j].name) == j
  {
    NamesDistinct();
  }
}
