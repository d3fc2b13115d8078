// The raw dump generator's configuration record and section lists
// (tools/makeRawDump/makeDumpFile.h). DUMP_CONFIG is threaded through the
// model as a value: every routine that takes the PDUMP_CONFIG returns the
// record as it leaves it.
module MakeDumpDefs {
  import opened Machine
  import opened RawDumpDefs
  import SvGuidTable

  const MAX_DDR_SECTIONS: nat := 250
  const DEFAULT_DDR_SECTIONS_COUNT: u32 := 2
  const DEFAULT_DDR_SECTIONS_SIZE: u64 := 0x8000_0000
  const DEFAULT_DDR_SECTIONS_BASE: u64 := 0x2000_0000
  const DEFAULT_CORE_COUNT: u32 := 6
  const DEFAULT_BLOCK_SIZE: nat := 0x1000

  /** MAX_VALUE(UINT32) and MAX_VALUE(ULONGLONG), which mark a field as not set. */
  const INVALID_UINT32: u32 := U32_MAX
  const INVALID_ULARGE_INTEGER: u64 := U64_MAX

  /** The printable ASCII characters the payload cycles through. */
  const TEST_PATTERN_BEGIN: nat := 32
  const TEST_PATTERN_END: nat := 126
  const TEST_PATTERN_SIZE: nat := 95
  const MIN_TEST_PATTERN_SIZE: nat := 389120   // TEST_PATTERN_SIZE * DEFAULT_BLOCK_SIZE
  const PADDING_BUFFER_SIZE: nat := 0x10_0000

  const DEFAULT_DUMP_FILE_NAME: string := "RawDump.bin"

  /** The payload byte at file offset `offset`. */
  function Offset2Value(offset: nat): (b: u8)
    ensures TEST_PATTERN_BEGIN <= b <= TEST_PATTERN_END
  {
    offset % TEST_PATTERN_SIZE + TEST_PATTERN_BEGIN
  }

  /** SECTION_TABLE_SIZE(count). */
  function SectionTableSize(count: nat): nat
  {
    PACKED_RAW_DUMP_SECTION_HEADER_SIZE * count
  }

  /** DDR_PROXIMITY: where the DDR sections go in the section table. */
  datatype Proximity = ProximityUnset | Adjacent | Scatter

  /** DDR_ORDER: the order of the DDR sections. */
  datatype Order = OrderUnset | AsListed | Ascending | Descending | Random

  /** The enumerator values, 0 being the UNSET one of each. */
  function ProximityCode(p: Proximity): nat
  {
    match p
    case ProximityUnset => 0
    case Adjacent => 1
    case Scatter => 2
  }

  function OrderCode(o: Order): nat
  {
    match o
    case OrderUnset => 0
    case AsListed => 1
    case Ascending => 2
    case Descending => 3
    case Random => 4
  }

  /** A std::vector<PRAW_DUMP_SECTION_HEADER>: None is a nullptr slot. */
  type SectionList = seq<Option<SectionHeader>>

  predicate AllPresent(list: SectionList)
  {
    forall i :: 0 <= i < |list| ==> list[i].Some?
  }

  /** The entries of a list whose slots are all filled. */
  function Present(list: SectionList): (r: seq<SectionHeader>)
    requires AllPresent(list)
    ensures |r| == |list| && forall i :: 0 <= i < |list| ==> list[i] == Some(r[i])
  {
    seq(|list|, i requires 0 <= i < |list| => list[i].value)
  }

  /** The plain sum of the Size fields of a run of entries. */
  function SumSizes(s: seq<SectionHeader>): nat
  {
    if |s| == 0 then 0 else SumSizes(s[..|s| - 1]) + s[|s| - 1].size
  }

  lemma {:induction false} SumSizesAppend(a: seq<SectionHeader>, b: seq<SectionHeader>)
    ensures SumSizes(a + b) == SumSizes(a) + SumSizes(b)
    decreases |b|
  {
    if |b| == 0 {
      assert a + b == a;
    } else {
      assert (a + b)[..|a + b| - 1] == a + b[..|b| - 1];
      SumSizesAppend(a, b[..|b| - 1]);
    }
  }

  /** Taking entry j out of a run takes its size out of the sum. */
  lemma SumSizesRemove(b: seq<SectionHeader>, j: nat)
    requires j < |b|
    ensures SumSizes(b) == b[j].size + SumSizes(b[..j] + b[j + 1..])
  {
    var l, x, r := b[..j], b[j], b[j + 1..];
    assert b == l + ([x] + r);
    SumSizesAppend(l, [x] + r);
    SumSizesAppend([x], r);
    assert SumSizes([x]) == x.size by {
      assert [x][..0] == [];
    }
    SumSizesAppend(l, r);
  }

  lemma MultisetRemove(a: seq<SectionHeader>, b: seq<SectionHeader>, j: nat)
    requires |a| > 0 && multiset(a) == multiset(b) && j < |b| && b[j] == a[|a| - 1]
    ensures multiset(a[..|a| - 1]) == multiset(b[..j] + b[j + 1..])
  {
    var x, a', l, r := a[|a| - 1], a[..|a| - 1], b[..j], b[j + 1..];
    assert a == a' + [x];
    assert multiset(a) == multiset(a') + multiset{x};
    assert b == l + [x] + r;
    assert multiset(b) == multiset(l) + multiset{x} + multiset(r);
    assert multiset(l + r) == multiset(l) + multiset(r);
    assert multiset(a') == multiset(a) - multiset{x};
    assert multiset(l + r) == multiset(b) - multiset{x};
  }

  /** Reordering entries does not change the sum of their sizes. */
  lemma {:induction false} SumSizesPermutation(a: seq<SectionHeader>, b: seq<SectionHeader>)
    requires multiset(a) == multiset(b)
    ensures SumSizes(a) == SumSizes(b)
    decreases |a|
  {
    if |a| > 0 {
      var x := a[|a| - 1];
      assert x in multiset(a);
      assert x in multiset(b);
      var j :| 0 <= j < |b| && b[j] == x;
      MultisetRemove(a, b, j);
      SumSizesPermutation(a[..|a| - 1], b[..j] + b[j + 1..]);
      SumSizesRemove(b, j);
    } else {
      assert |b| == |multiset(b)| == 0;
    }
  }

  /** The pointers of a table of entries. */
  function Pointers(s: seq<SectionHeader>): (r: SectionList)
    ensures |r| == |s| && AllPresent(r) && Present(r) == s
  {
    var r := seq(|s|, i requires 0 <= i < |s| => Some(s[i]));
    assert Present(r) == s;
    r
  }

  /**
   * ResizeSectionsList: a list shorter than newSize grows to it with null
   * slots; a list already as long keeps its size and its entries.
   */
  function Resize(list: SectionList, newSize: nat): (r: SectionList)
    ensures |r| == Max(|list|, newSize) && r[..|list|] == list
    ensures forall i :: |list| <= i < |r| ==> r[i] == None
  {
    if newSize > |list| then list + seq(newSize - |list|, _ => None) else list
  }

  /** Resizing never shrinks a list, and resizing to its own size or less changes nothing. */
  lemma ResizeOnlyGrows(list: SectionList, newSize: nat)
    ensures |Resize(list, newSize)| >= |list| && |Resize(list, newSize)| >= newSize
    ensures newSize <= |list| ==> Resize(list, newSize) == list
    ensures forall i :: 0 <= i < |list| ==> Resize(list, newSize)[i] == list[i]
  {
    var r := Resize(list, newSize);
    assert forall i :: 0 <= i < |list| ==> r[i] == r[..|list|][i];
  }

  /** A header with every field zero: the zero-initialised record in main. */
  function ZeroHeader(): RawDumpHeader
  {
    RawDumpHeader(0, 0, 0, 0, 0, 0, 0, 0, 0)
  }

  /** The bytes of an ASCII name in a zeroed 20-byte Name field. */
  predicate FitsName(s: string)
  {
    |s| <= RAW_DUMP_SECTION_HEADER_NAME_LENGTH && forall i :: 0 <= i < |s| ==> s[i] as int < 128
  }

  function NameField(s: string): (r: Name20)
    requires FitsName(s)
  {
    SvGuidTable.Padded(s)
  }

  /**
   * DUMP_CONFIG, together with the global outFileName. The fields
   * badHeaderNumberOfSections, DDROverlap and actualRawDumpFileSize are not
   * read by any of the routines modelled and are left out.
   */
  datatype Config = Config(
    badHeaderSignature: bool,
    badHeaderVersion: bool,
    badHeaderFlags: bool,
    excludeTZ: bool,
    excludeApReg: bool,
    dumpFileHeader: RawDumpHeader,
    dumpFileSections: SectionList,
    writePayload: bool,
    outputToPartition: bool,
    requestedRawDumpFileSize: u64,
    sectionTableOffset: u64,
    payloadOffset: u64,
    ddrSectionCount: u32,
    ddrProximity: Proximity,
    ddrOrder: Order,
    ddrSize: u64,
    ddrPayloadSize: u64,
    sectionDDR: SectionList,
    coreCount: u32,
    cpuPayloadSize: u64,
    sectionCPU: SectionList,
    svPayloadSize: u64,
    sectionSV: SectionList,
    outFileName: string)

  /** The section entry the generator builds for a DDR range, a CPU context or an SV blob. */
  function NewSection(sectionType: u32, base: u64, size: u64, name: Name20): (h: SectionHeader)
    ensures h.flags == RAW_DUMP_HEADER_FLAGS_VALID && h.version == RAW_DUMP_SECTION_HEADER_VERSION
    ensures h.sectionType == sectionType && h.offset == INVALID_ULARGE_INTEGER && h.size == size
    ensures DdrBase(h) == base && h.name == name
  {
    SectionHeader(RAW_DUMP_HEADER_FLAGS_VALID, RAW_DUMP_SECTION_HEADER_VERSION, sectionType,
                  INVALID_ULARGE_INTEGER, size, SectionUnion(base, 0), name)
  }
}
