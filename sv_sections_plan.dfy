// The plan of WriteSVSpecific (raw2dump/src/WriteSVSections.cpp): the
// secondary dump data is the DUMP_BLOB_FILE_HEADER, the raw dump table blob,
// the AP_REG blob when there is one, a blob per SV specific section and the
// non-OS DDR blobs.
module SvSectionsPlan {
  import opened Machine
  import opened RawDumpDefs
  import opened DdrMemoryMap
  import opened SvPlan
  import opened SvGuidTable

  /** sizeof(RAW_DUMP_SECTION_HEADER) in raw2dump's layout. */
  const SECTION_HEADER_SIZE: nat := PACKED_RAW_DUMP_SECTION_HEADER_SIZE
  const NAME_LENGTH: nat := RAW_DUMP_SECTION_HEADER_NAME_LENGTH

  // ------------------------------------------------- the raw dump table

  /** RawDumpTableSize(SectionsCount), a 64-bit product. */
  function TableSize(sectionsCount: u32): nat
  {
    sectionsCount as nat * SECTION_HEADER_SIZE
  }

  /**
   * The blob file header, then the RAW_DUMP_TABLE blob announcing
   * sizeof(RAW_DUMP_HEADER) + RawDumpTableSize bytes, the header and the
   * table (whose write size is a ULONG).
   */
  function TablePlan(hdr: RawDumpHeader, table: seq<SectionHeader>, offset: nat): seq<Event>
    requires hdr.sectionsCount as nat <= |table|
  {
    var n := hdr.sectionsCount;
    var o := offset + DUMP_BLOB_FILE_HEADER_SIZE;
    [FileHeaderEvent(offset)]
      + ([BlobEvent(o, RAW_DUMP_TABLE_GUID, RAW_DUMP_HEADER_SIZE + TableSize(n))]
      + ([Write(o + DUMP_BLOB_HEADER_SIZE, RAW_DUMP_HEADER_SIZE, RawHeader(hdr))]
      + [Write(o + DUMP_BLOB_HEADER_SIZE + RAW_DUMP_HEADER_SIZE, Trunc32(TableSize(n)), RawTable(table[..n]))]))
  }

  function TableBytes(sectionsCount: u32): nat
  {
    DUMP_BLOB_FILE_HEADER_SIZE + DUMP_BLOB_HEADER_SIZE + RAW_DUMP_HEADER_SIZE + Trunc32(TableSize(sectionsCount))
  }

  // ------------------------------------------------------------ AP_REG

  /** The CPU_CONTEXT blob of TotalCpuContextSizeInBytes bytes, when the context holds AP_REG. */
  function ApRegPlan(apReg: Option<u64>, offset: nat): seq<Event>
  {
    match apReg
    case None => []
    case Some(size) => [BlobEvent(offset, CPU_CONTEXT_GUID, size)] + [Write(offset + DUMP_BLOB_HEADER_SIZE, Trunc32(size), ApReg)]
  }

  function ApRegBytes(apReg: Option<u64>): nat
  {
    match apReg
    case None => 0
    case Some(size) => DUMP_BLOB_HEADER_SIZE + Trunc32(size)
  }

  // ------------------------------------------------ SV specific sections

  predicate IsSvSpecific(s: SectionHeader)
  {
    s.sectionType == RAW_DUMP_SECTION_TYPE_SV_SPECIFIC
  }

  /**
   * One SV specific section: read its (UINT32)Size bytes, then a blob tagged
   * with the GUID its name selects. Other sections give nothing.
   */
  function SectionEvents(guids: seq<GuidName>, s: SectionHeader, offset: nat): seq<Event>
    requires 0 < |guids|
  {
    if !IsSvSpecific(s) then []
    else [Read(s.offset, Trunc32(s.size))] + SectionBlob(TagOf(guids, s.name), s, offset)
  }

  /** A section's blob: (UINT32)Size + 20 bytes in a UINT32, holding the 20-byte name and the bytes read. */
  function SectionBlob(guid: Guid, s: SectionHeader, offset: nat): seq<Event>
  {
    var n := Trunc32(s.size);
    [BlobEvent(offset, guid, Add32(n, NAME_LENGTH))]
      + ([Write(offset + DUMP_BLOB_HEADER_SIZE, NAME_LENGTH, Name(s.name))]
      + [Write(offset + DUMP_BLOB_HEADER_SIZE + NAME_LENGTH, n, RawRange(s.offset, n))])
  }

  function SectionBytes(s: SectionHeader): nat
  {
    if IsSvSpecific(s) then DUMP_BLOB_HEADER_SIZE + NAME_LENGTH + Trunc32(s.size) else 0
  }

  function SvCopies(guids: seq<GuidName>, t: seq<SectionHeader>, offset: nat): seq<Event>
    requires 0 < |guids|
  {
    if t == [] then [] else SectionEvents(guids, t[0], offset) + SvCopies(guids, t[1..], offset + SectionBytes(t[0]))
  }

  function SvBytes(t: seq<SectionHeader>): nat
  {
    if t == [] then 0 else SectionBytes(t[0]) + SvBytes(t[1..])
  }

  /** A section's blob is framed when its size and name fit the UINT32 blob size. */
  predicate SectionFits(s: SectionHeader)
  {
    IsSvSpecific(s) ==> Trunc32(s.size) + NAME_LENGTH < U32_LIMIT
  }

  lemma SvCopiesAt(guids: seq<GuidName>, t: seq<SectionHeader>, i: nat, offset: nat)
    requires 0 < |guids| && i < |t|
    ensures SvCopies(guids, t[i..], offset)
            == SectionEvents(guids, t[i], offset) + SvCopies(guids, t[i + 1..], offset + SectionBytes(t[i]))
    ensures SvBytes(t[i..]) == SectionBytes(t[i]) + SvBytes(t[i + 1..])
  {
    assert t[i..][0] == t[i] && t[i..][1..] == t[i + 1..];
  }

  /**
   * One turn of the section loop over `t`: with `done` carried out and the
   * copies of `t[i..]` still to do, the next section's events either all
   * succeed, leaving the copies of `t[i + 1..]`, or stop the whole plan there.
   */
  lemma SvCopiesStep(guids: seq<GuidName>, t: seq<SectionHeader>, i: nat, cursor: nat, next: nat, plan: seq<Event>, done: seq<Event>,
                     capacity: nat, rawSize: nat)
    requires 0 < |guids| && i < |t| && next == cursor + SectionBytes(t[i])
    requires plan == done + SvCopies(guids, t[i..], cursor) && Done(done, capacity, rawSize) == done
    ensures var step := SectionEvents(guids, t[i], cursor);
            && (Done(step, capacity, rawSize) == step ==>
                  plan == (done + step) + SvCopies(guids, t[i + 1..], next) && Done(done + step, capacity, rawSize) == done + step)
            && (Done(step, capacity, rawSize) != step ==> Done(plan, capacity, rawSize) == done + Done(step, capacity, rawSize) != plan)
    ensures SvBytes(t[i..]) == SectionBytes(t[i]) + SvBytes(t[i + 1..])
  {
    var step := SectionEvents(guids, t[i], cursor);
    var rest := SvCopies(guids, t[i + 1..], next);
    SvCopiesAt(guids, t, i, cursor);
    if Done(step, capacity, rawSize) == step {
      StepPass(plan, done, step, rest, capacity, rawSize);
    } else {
      StepFail(plan, done, step, rest, capacity, rawSize);
    }
  }

  /**
   * One section's writes are back to back, and its blob is framed exactly
   * when (UINT32)Size + 20 does not wrap.
   */
  lemma SectionLayout(guids: seq<GuidName>, s: SectionHeader, offset: nat)
    requires 0 < |guids|
    ensures WritesEnd(SectionEvents(guids, s, offset), offset) == Some(offset + SectionBytes(s))
    ensures Framing(SectionEvents(guids, s, offset), 0) == if SectionFits(s) then Some(0) else None
  {
    if IsSvSpecific(s) {
      var n := Trunc32(s.size);
      var r := Read(s.offset, n);
      var guid := TagOf(guids, s.name);
      var b := BlobEvent(offset, guid, Add32(n, NAME_LENGTH));
      var w1 := Write(offset + DUMP_BLOB_HEADER_SIZE, NAME_LENGTH, Name(s.name));
      var w2 := Write(offset + DUMP_BLOB_HEADER_SIZE + NAME_LENGTH, n, RawRange(s.offset, n));
      WritesEndAppend([r], SectionBlob(guid, s, offset), offset);
      WritesEndAppend([b], [w1] + [w2], offset);
      WritesEndAppend([w1], [w2], offset + DUMP_BLOB_HEADER_SIZE);
      FramingAppend([r], SectionBlob(guid, s, offset), 0);
      FramingAppend([b], [w1] + [w2], 0);
      FramingAppend([w1], [w2], Add32(n, NAME_LENGTH));
      assert [r][1..] == [] && [b][1..] == [] && [w1][1..] == [] && [w2][1..] == [];
    }
  }

  /** The writes of the section loop are back to back. */
  lemma {:induction false} SvCopiesEnd(guids: seq<GuidName>, t: seq<SectionHeader>, offset: nat)
    requires 0 < |guids|
    ensures WritesEnd(SvCopies(guids, t, offset), offset) == Some(offset + SvBytes(t))
  {
    if t != [] {
      var next := offset + SectionBytes(t[0]);
      SectionLayout(guids, t[0], offset);
      WritesEndAppend(SectionEvents(guids, t[0], offset), SvCopies(guids, t[1..], next), offset);
      SvCopiesEnd(guids, t[1..], next);
    }
  }

  /** The blobs of the section loop are all framed exactly when no section's blob size wraps. */
  lemma {:induction false} SvCopiesFraming(guids: seq<GuidName>, t: seq<SectionHeader>, offset: nat)
    requires 0 < |guids|
    ensures Framing(SvCopies(guids, t, offset), 0) == Some(0) <==> forall i :: 0 <= i < |t| ==> SectionFits(t[i])
  {
    if t != [] {
      var next := offset + SectionBytes(t[0]);
      SectionLayout(guids, t[0], offset);
      FramingAppend(SectionEvents(guids, t[0], offset), SvCopies(guids, t[1..], next), 0);
      SvCopiesFraming(guids, t[1..], next);
      if !SectionFits(t[0]) {
        assert !(forall i :: 0 <= i < |t| ==> SectionFits(t[i]));
      } else {
        assert (forall i :: 0 <= i < |t| ==> SectionFits(t[i])) <==> (forall i :: 0 <= i < |t[1..]| ==> SectionFits(t[1..][i]));
      }
    }
  }

  // ------------------------------------------------------ the whole data

  /**
   * WriteSVSpecific's writes once SecondaryDataBlobCount is not 0: the
   * raw dump table, then AP_REG and what follows it.
   */
  function SecondaryPlan(guids: seq<GuidName>, hdr: RawDumpHeader, table: seq<SectionHeader>, apReg: Option<u64>, gotMemory: bool,
                         m: seq<Entry>, count: u32, totalNonOS: u64, offset: nat): seq<Event>
    requires 0 < |guids| && hdr.sectionsCount as nat <= |table| && count as nat <= |m|
  {
    TablePlan(hdr, table, offset)
      + AfterTable(guids, hdr, table, apReg, gotMemory, m, count, totalNonOS, offset + TableBytes(hdr.sectionsCount))
  }

  lemma SecondaryPlanSplit(guids: seq<GuidName>, hdr: RawDumpHeader, table: seq<SectionHeader>, apReg: Option<u64>, gotMemory: bool,
                           m: seq<Entry>, count: u32, totalNonOS: u64, offset: nat)
    requires 0 < |guids| && hdr.sectionsCount as nat <= |table| && count as nat <= |m|
    ensures SecondaryPlan(guids, hdr, table, apReg, gotMemory, m, count, totalNonOS, offset)
            == TablePlan(hdr, table, offset) + AfterTable(guids, hdr, table, apReg, gotMemory, m, count, totalNonOS, offset + TableBytes(hdr.sectionsCount))
  {
  }

  /** AP_REG, then the sections and the non-OS DDR. */
  function AfterTable(guids: seq<GuidName>, hdr: RawDumpHeader, table: seq<SectionHeader>, apReg: Option<u64>, gotMemory: bool,
                      m: seq<Entry>, count: u32, totalNonOS: u64, offset: nat): seq<Event>
    requires 0 < |guids| && hdr.sectionsCount as nat <= |table| && count as nat <= |m|
  {
    ApRegPlan(apReg, offset)
      + AfterApReg(guids, hdr, table, gotMemory, m, count, totalNonOS, offset + ApRegBytes(apReg))
  }

  /**
   * When the section buffer could be allocated, every SV specific section
   * among the first SectionsCount, then the non-OS DDR; otherwise nothing.
   */
  function AfterApReg(guids: seq<GuidName>, hdr: RawDumpHeader, table: seq<SectionHeader>, gotMemory: bool,
                      m: seq<Entry>, count: u32, totalNonOS: u64, offset: nat): seq<Event>
    requires 0 < |guids| && hdr.sectionsCount as nat <= |table| && count as nat <= |m|
  {
    if gotMemory then
      SvCopies(guids, table[..hdr.sectionsCount], offset)
        + NonOsPlan(m, count, totalNonOS, offset + SvBytes(table[..hdr.sectionsCount]))
    else []
  }

  function AfterApRegBytes(hdr: RawDumpHeader, table: seq<SectionHeader>, gotMemory: bool, m: seq<Entry>, count: u32): nat
    requires hdr.sectionsCount as nat <= |table| && count as nat <= |m|
  {
    if gotMemory then SvBytes(table[..hdr.sectionsCount]) + NonOsPlanBytes(m, count) else 0
  }

  function SecondaryBytes(hdr: RawDumpHeader, table: seq<SectionHeader>, apReg: Option<u64>, gotMemory: bool,
                          m: seq<Entry>, count: u32): nat
    requires hdr.sectionsCount as nat <= |table| && count as nat <= |m|
  {
    TableBytes(hdr.sectionsCount) + ApRegBytes(apReg) + AfterApRegBytes(hdr, table, gotMemory, m, count)
  }

  lemma TableLayout(hdr: RawDumpHeader, table: seq<SectionHeader>, offset: nat)
    requires hdr.sectionsCount as nat <= |table|
    ensures WritesEnd(TablePlan(hdr, table, offset), offset) == Some(offset + TableBytes(hdr.sectionsCount))
    ensures RAW_DUMP_HEADER_SIZE + TableSize(hdr.sectionsCount) < U32_LIMIT ==>
              Framing(TablePlan(hdr, table, offset), 0) == Some(0)
  {
    var n := hdr.sectionsCount;
    var o := offset + DUMP_BLOB_FILE_HEADER_SIZE;
    var f := FileHeaderEvent(offset);
    var b := BlobEvent(o, RAW_DUMP_TABLE_GUID, RAW_DUMP_HEADER_SIZE + TableSize(n));
    var w1 := Write(o + DUMP_BLOB_HEADER_SIZE, RAW_DUMP_HEADER_SIZE, RawHeader(hdr));
    var w2 := Write(o + DUMP_BLOB_HEADER_SIZE + RAW_DUMP_HEADER_SIZE, Trunc32(TableSize(n)), RawTable(table[..n]));
    WritesEndAppend([f], [b] + ([w1] + [w2]), offset);
    WritesEndAppend([b], [w1] + [w2], o);
    WritesEndAppend([w1], [w2], o + DUMP_BLOB_HEADER_SIZE);
    FramingAppend([f], [b] + ([w1] + [w2]), 0);
    FramingAppend([b], [w1] + [w2], 0);
    FramingAppend([w1], [w2], Trunc32(RAW_DUMP_HEADER_SIZE + TableSize(n)));
    assert [f][1..] == [] && [b][1..] == [] && [w1][1..] == [] && [w2][1..] == [];
  }

  lemma ApRegLayout(apReg: Option<u64>, offset: nat)
    ensures WritesEnd(ApRegPlan(apReg, offset), offset) == Some(offset + ApRegBytes(apReg))
    ensures Framing(ApRegPlan(apReg, offset), 0) == Some(0)
  {
    if apReg.Some? {
      var b := BlobEvent(offset, CPU_CONTEXT_GUID, apReg.value);
      var w := Write(offset + DUMP_BLOB_HEADER_SIZE, Trunc32(apReg.value), ApReg);
      WritesEndAppend([b], [w], offset);
      FramingAppend([b], [w], 0);
      assert [b][1..] == [] && [w][1..] == [];
    }
  }

  lemma AfterApRegEnd(guids: seq<GuidName>, hdr: RawDumpHeader, table: seq<SectionHeader>, gotMemory: bool,
                      m: seq<Entry>, count: u32, totalNonOS: u64, offset: nat)
    requires 0 < |guids| && hdr.sectionsCount as nat <= |table| && count as nat <= |m|
    ensures WritesEnd(AfterApReg(guids, hdr, table, gotMemory, m, count, totalNonOS, offset), offset)
            == Some(offset + AfterApRegBytes(hdr, table, gotMemory, m, count))
  {
    if gotMemory {
      var t := table[..hdr.sectionsCount];
      var o := offset + SvBytes(t);
      SvCopiesEnd(guids, t, offset);
      NonOsPlanLayout(m, count, totalNonOS, o);
      WritesEndChain(SvCopies(guids, t, offset), NonOsPlan(m, count, totalNonOS, o), offset, o, o + NonOsPlanBytes(m, count));
    }
  }

  lemma AfterApRegFraming(guids: seq<GuidName>, hdr: RawDumpHeader, table: seq<SectionHeader>, gotMemory: bool,
                          m: seq<Entry>, count: u32, totalNonOS: u64, offset: nat)
    requires 0 < |guids| && hdr.sectionsCount as nat <= |table| && count as nat <= |m|
    requires forall i :: 0 <= i < hdr.sectionsCount ==> SectionFits(table[i])
    requires NonOsBytes(m[..count]) == Trunc32(totalNonOS)
    ensures Framing(AfterApReg(guids, hdr, table, gotMemory, m, count, totalNonOS, offset), 0) == Some(0)
  {
    if gotMemory {
      PrefixFits(table, hdr.sectionsCount as nat);
      CopiesThenNonOsFraming(guids, table[..hdr.sectionsCount], m, count, totalNonOS, offset);
    }
  }

  /** The first n entries of a table whose first n entries fit, as a sequence of their own. */
  lemma PrefixFits(table: seq<SectionHeader>, n: nat)
    requires n <= |table| && forall i :: 0 <= i < n ==> SectionFits(table[i])
    ensures forall i :: 0 <= i < |table[..n]| ==> SectionFits(table[..n][i])
  {
  }

  /** The section copies followed by the non-OS plan are framed when both halves are. */
  lemma CopiesThenNonOsFraming(guids: seq<GuidName>, t: seq<SectionHeader>, m: seq<Entry>, count: u32, totalNonOS: u64, offset: nat)
    requires 0 < |guids| && count as nat <= |m|
    requires forall i :: 0 <= i < |t| ==> SectionFits(t[i])
    requires NonOsBytes(m[..count]) == Trunc32(totalNonOS)
    ensures Framing(SvCopies(guids, t, offset) + NonOsPlan(m, count, totalNonOS, offset + SvBytes(t)), 0) == Some(0)
  {
    SvCopiesFraming(guids, t, offset);
    NonOsPlanLayout(m, count, totalNonOS, offset + SvBytes(t));
    FramingChain(SvCopies(guids, t, offset), NonOsPlan(m, count, totalNonOS, offset + SvBytes(t)));
  }

  lemma AfterTableEnd(guids: seq<GuidName>, hdr: RawDumpHeader, table: seq<SectionHeader>, apReg: Option<u64>, gotMemory: bool,
                      m: seq<Entry>, count: u32, totalNonOS: u64, offset: nat)
    requires 0 < |guids| && hdr.sectionsCount as nat <= |table| && count as nat <= |m|
    ensures WritesEnd(AfterTable(guids, hdr, table, apReg, gotMemory, m, count, totalNonOS, offset), offset)
            == Some(offset + ApRegBytes(apReg) + AfterApRegBytes(hdr, table, gotMemory, m, count))
  {
    var o := offset + ApRegBytes(apReg);
    ApRegLayout(apReg, offset);
    AfterApRegEnd(guids, hdr, table, gotMemory, m, count, totalNonOS, o);
    WritesEndChain(ApRegPlan(apReg, offset), AfterApReg(guids, hdr, table, gotMemory, m, count, totalNonOS, o),
                   offset, o, o + AfterApRegBytes(hdr, table, gotMemory, m, count));
  }

  lemma AfterTableFraming(guids: seq<GuidName>, hdr: RawDumpHeader, table: seq<SectionHeader>, apReg: Option<u64>, gotMemory: bool,
                          m: seq<Entry>, count: u32, totalNonOS: u64, offset: nat)
    requires 0 < |guids| && hdr.sectionsCount as nat <= |table| && count as nat <= |m|
    requires forall i :: 0 <= i < hdr.sectionsCount ==> SectionFits(table[i])
    requires NonOsBytes(m[..count]) == Trunc32(totalNonOS)
    ensures Framing(AfterTable(guids, hdr, table, apReg, gotMemory, m, count, totalNonOS, offset), 0) == Some(0)
  {
    var o := offset + ApRegBytes(apReg);
    ApRegLayout(apReg, offset);
    AfterApRegFraming(guids, hdr, table, gotMemory, m, count, totalNonOS, o);
    FramingChain(ApRegPlan(apReg, offset), AfterApReg(guids, hdr, table, gotMemory, m, count, totalNonOS, o));
  }

  /**
   * The secondary dump data is written back to back from
   * SecondaryDataOffset to the final dump offset, and every blob's DataSize
   * is the number of bytes written after its header when the raw dump
   * table, every SV section and the non-OS total fit their ULONG sizes.
   */
  lemma SecondaryLayout(guids: seq<GuidName>, hdr: RawDumpHeader, table: seq<SectionHeader>, apReg: Option<u64>, gotMemory: bool,
                        m: seq<Entry>, count: u32, totalNonOS: u64, offset: nat)
    requires 0 < |guids| && hdr.sectionsCount as nat <= |table| && count as nat <= |m|
    ensures WritesEnd(SecondaryPlan(guids, hdr, table, apReg, gotMemory, m, count, totalNonOS, offset), offset)
            == Some(offset + SecondaryBytes(hdr, table, apReg, gotMemory, m, count))
    ensures RAW_DUMP_HEADER_SIZE + TableSize(hdr.sectionsCount) < U32_LIMIT
            && (forall i :: 0 <= i < hdr.sectionsCount ==> SectionFits(table[i]))
            && NonOsBytes(m[..count]) == Trunc32(totalNonOS)
            ==> Framing(SecondaryPlan(guids, hdr, table, apReg, gotMemory, m, count, totalNonOS, offset), 0) == Some(0)
  {
    var o := offset + TableBytes(hdr.sectionsCount);
    var rest := AfterTable(guids, hdr, table, apReg, gotMemory, m, count, totalNonOS, o);
    TableLayout(hdr, table, offset);
    AfterTableEnd(guids, hdr, table, apReg, gotMemory, m, count, totalNonOS, o);
    WritesEndChain(TablePlan(hdr, table, offset), rest, offset, o, offset + SecondaryBytes(hdr, table, apReg, gotMemory, m, count));
    if && RAW_DUMP_HEADER_SIZE + TableSize(hdr.sectionsCount) < U32_LIMIT
       && (forall i :: 0 <= i < hdr.sectionsCount ==> SectionFits(table[i]))
       && NonOsBytes(m[..count]) == Trunc32(totalNonOS)
    {
      AfterTableFraming(guids, hdr, table, apReg, gotMemory, m, count, totalNonOS, o);
      FramingChain(TablePlan(hdr, table, offset), rest);
    }
  }
}
