// The offline dump tool's DDR memory map builder, its reader by physical
// address and its write into the dedicated dump by physical address
// (test/offdumptool/exe/Dumputil.cpp, test/offdumptool/exe/DumpUtil.h).
module OffdumpUtil {
  import opened Machine
  import opened Status
  import opened RawDumpDefs
  import opened DdrMemoryMap
  import DumpHeader
  import R2 = Raw2DumpUtil
  import RR = Raw2DumpReader

  /**
   * The fields of the offline tool's DMP_CONTEXT the modelled operations
   * read or write: the section table and its SECTION_TABLE_STATS, the DDR
   * memory map, Is64Bit and the DDR part's offset in the dedicated dump.
   */
  datatype OffContext = OffContext(
    sectionTable: seq<SectionHeader>,
    stats: DumpHeader.SectionTableStats,
    ddrMemoryMapCount: u32,
    ddrMemoryMap: seq<Entry>,
    is64Bit: bool,
    ddrFileOffset: u64)

  // ---------------------------------------------------------------- DDR memory map

  /** FirstDDRSection[0 .. DDRSectionCount) lies in the section table. */
  predicate DdrRunInTable(ctx: OffContext)
  {
    ctx.stats.ddrSectionCount == 0
    || (ctx.stats.firstDDRSection.Some?
        && ctx.stats.firstDDRSection.value + ctx.stats.ddrSectionCount as nat <= |ctx.sectionTable|)
  }

  /** The DDRSectionCount sections from FirstDDRSection on. */
  function DdrRun(ctx: OffContext): (r: seq<SectionHeader>)
    requires DdrRunInTable(ctx)
    ensures |r| == ctx.stats.ddrSectionCount as nat
  {
    if ctx.stats.ddrSectionCount == 0 then []
    else
      var first := ctx.stats.firstDDRSection.value;
      ctx.sectionTable[first .. first + ctx.stats.ddrSectionCount as nat]
  }

  /**
   * The context after a complete fill and a sort into `sorted`: the full
   * count, the map with the sanity pass's marks up to its stopping point,
   * and its holes and overlaps added to the statistics' counters.
   */
  function MarkedMapContext(ctx: OffContext, sorted: seq<Entry>): OffContext
    requires |sorted| == ctx.stats.ddrSectionCount as nat
  {
    var k := StopIndex(sorted);
    ctx.(ddrMemoryMapCount := ctx.stats.ddrSectionCount,
         ddrMemoryMap := R2.MarkContiguous(sorted, k),
         stats := ctx.stats.(
           ddrSectionFragmentationCount := Add32(ctx.stats.ddrSectionFragmentationCount, CountPairs(sorted, k, Hole)),
           ddrSectionsOverlapCount := Add32(ctx.stats.ddrSectionsOverlapCount, CountPairs(sorted, k, Overlap))))
  }

  /**
   * BuildDDRMemoryMap of the offline tool. The DDRSectionCount sections at
   * FirstDDRSection are copied into a zeroed map until one is not a DDR
   * section (STATUS_BAD_DATA); the sum of their sizes (UINT64) must equal
   * the statistics' TotalDDRSizeInBytes (STATUS_BAD_DATA otherwise); the
   * map is bubble-sorted by Base; the sanity pass stops at the first entry
   * with End < Base or Size 0 (STATUS_BAD_DATA), counts holes and overlaps
   * onto the statistics and marks entry 0 and every entry adjacent to its
   * predecessor Contiguous. A nonzero overlap count is STATUS_UNSUCCESSFUL;
   * holes are harmless.
   */
  method BuildDDRMemoryMap(ctx: OffContext, allocOk: bool) returns (status: NtStatus, ctx': OffContext)
    requires DdrRunInTable(ctx)
    ensures !allocOk ==> status == STATUS_NO_MEMORY && ctx' == ctx.(ddrMemoryMapCount := 0, ddrMemoryMap := [])
    ensures allocOk && FirstNotOfType(DdrRun(ctx), RAW_DUMP_SECTION_TYPE_DDR_RANGE).Some? ==>
              var b := FirstNotOfType(DdrRun(ctx), RAW_DUMP_SECTION_TYPE_DDR_RANGE).value;
              status == STATUS_BAD_DATA
              && ctx' == ctx.(ddrMemoryMapCount := b as u32,
                              ddrMemoryMap := FillFrom(DdrRun(ctx)[..b]) + seq(|DdrRun(ctx)| - b, _ => ZeroEntry))
    ensures allocOk && FirstNotOfType(DdrRun(ctx), RAW_DUMP_SECTION_TYPE_DDR_RANGE).None?
            && SumSizeOfType(DdrRun(ctx), RAW_DUMP_SECTION_TYPE_DDR_RANGE) != ctx.stats.totalDDRSizeInBytes ==>
              status == STATUS_BAD_DATA
              && ctx' == ctx.(ddrMemoryMapCount := ctx.stats.ddrSectionCount, ddrMemoryMap := FillFrom(DdrRun(ctx)))
    ensures allocOk && FirstNotOfType(DdrRun(ctx), RAW_DUMP_SECTION_TYPE_DDR_RANGE).None?
            && SumSizeOfType(DdrRun(ctx), RAW_DUMP_SECTION_TYPE_DDR_RANGE) == ctx.stats.totalDDRSizeInBytes ==>
              var sorted := R2.Plain(ctx'.ddrMemoryMap);
              |sorted| == ctx.stats.ddrSectionCount as nat && SortedByBase(sorted)
              && multiset(sorted) == multiset(FillFrom(DdrRun(ctx)))
              && ctx' == MarkedMapContext(ctx, sorted)
              && (FirstDegenerate(sorted).Some? ==> status == STATUS_BAD_DATA)
              && (FirstDegenerate(sorted).None? && ctx'.stats.ddrSectionsOverlapCount != 0 ==> status == STATUS_UNSUCCESSFUL)
              && (status == STATUS_SUCCESS <==> FirstDegenerate(sorted).None? && ctx'.stats.ddrSectionsOverlapCount == 0)
    ensures status == STATUS_SUCCESS && ctx.stats.ddrSectionsOverlapCount == 0 ==>
              R2.WellFormedMarkedMap(ctx'.ddrMemoryMap) && |ctx'.ddrMemoryMap| == ctx.stats.ddrSectionCount as nat
  {
    if !allocOk {
      return STATUS_NO_MEMORY, ctx.(ddrMemoryMapCount := 0, ddrMemoryMap := []);
    }
    var run := DdrRun(ctx);
    var a := new Entry[ctx.stats.ddrSectionCount](_ => ZeroEntry);
    var filled, total := FillDdrMap(run, a);
    if filled < |run| {
      return STATUS_BAD_DATA, ctx.(ddrMemoryMapCount := filled as u32, ddrMemoryMap := a[..]);
    }
    assert run[..filled] == run;
    if total != ctx.stats.totalDDRSizeInBytes {
      return STATUS_BAD_DATA, ctx.(ddrMemoryMapCount := ctx.stats.ddrSectionCount, ddrMemoryMap := a[..]);
    }
    FillFromNotContiguous(run);
    var frag, overlap;
    status, frag, overlap := R2.SortAndMark(a, ctx.stats.ddrSectionFragmentationCount, ctx.stats.ddrSectionsOverlapCount);
    ctx' := ctx.(ddrMemoryMapCount := ctx.stats.ddrSectionCount, ddrMemoryMap := a[..],
                 stats := ctx.stats.(ddrSectionFragmentationCount := frag, ddrSectionsOverlapCount := overlap));
  }

  // ---------------------------------------------------------------- reader

  /**
   * The loop variables after a read of n bytes, as the offline reader keeps
   * them: bytesRemain is a UINT64.
   */
  function NextState(s: ReadState, n: u32, advance: bool): (t: ReadState)
    ensures t.index == s.index + 1
  {
    ReadState(s.index + 1, Add64(s.start, n), Sub64(s.remain, n), Add32(s.span, 1), if advance then s.dest + n else s.dest)
  }

  /**
   * The offline reader's loop from state s. Unlike raw2dump's it takes the
   * section's end as Base + Size - 1 rather than the map's End, reads at
   * (address - Base) + Offset of the disk with no file offset, and counts
   * the bytes to go in 64 bits. A read fails (STATUS_UNSUCCESSFUL) when its
   * range is not on the disk; `advance` says whether the destination moves
   * on after a read (as written, `Buffer` moves but `temp` is read into).
   */
  function ReadLoop(m: seq<Entry>, count: nat, addressEnd: u64, disk: seq<u8>, advance: bool,
                    s: ReadState, chunks: seq<Chunk>): (NtStatus, seq<Chunk>)
    requires count <= |m| && s.index <= count
    decreases count - s.index
  {
    if s.index == count then (STATUS_UNSUCCESSFUL, chunks)
    else
      var e := m[s.index];
      var sectionEnd := EndOf(e.base, e.size);
      if s.span != 0 && s.remain != 0 && !e.contiguous then (STATUS_INVALID_PARAMETER, chunks)
      else if e.base <= s.start && sectionEnd >= s.start then
        var n := ChunkLength(sectionEnd, addressEnd, s.start);
        var off := TranslateOffset(0, e, s.start);
        if off + n > |disk| then (STATUS_UNSUCCESSFUL, chunks)
        else
          var c := Chunk(s.index, s.start, off, s.dest, n);
          if Sub64(s.remain, n) != 0 then ReadLoop(m, count, addressEnd, disk, advance, NextState(s, n, advance), chunks + [c])
          else (STATUS_SUCCESS, chunks + [c])
      else ReadLoop(m, count, addressEnd, disk, advance, RR.SkipState(s), chunks)
  }

  /** The read of `length` bytes at physical address pa; `advance` as in ReadLoop. */
  function ReadPlan(m: seq<Entry>, count: nat, disk: seq<u8>, pa: u64, length: u64, advance: bool): (NtStatus, seq<Chunk>)
    requires count <= |m|
  {
    ReadLoop(m, count, EndOf(pa, length), disk, advance, ReadState(0, pa, length, 0, 0), [])
  }

  /** Every entry of the map's first `count` has End = Base + Size - 1, as BuildDDRMemoryMap fills it. */
  predicate EndsComputed(m: seq<Entry>, count: nat)
    requires count <= |m|
  {
    forall i :: 0 <= i < count ==> m[i].end == EndOf(m[i].base, m[i].size)
  }

  /** A loop state with bytes still to read, each of them in [start, addressEnd], fewer than 2^32 of them. */
  predicate Pending(s: ReadState, addressEnd: u64)
  {
    1 <= s.remain < U32_LIMIT && s.start as int + s.remain == addressEnd as int + 1
  }

  /**
   * On a map whose End fields are Base + Size - 1, the offline reader's
   * loop and raw2dump's loop at file offset 0 make the same reads and
   * return the same status from any pending state.
   */
  lemma {:induction false} ReadLoopAgrees(m: seq<Entry>, count: nat, addressEnd: u64, disk: seq<u8>, advance: bool,
                                          s: ReadState, chunks: seq<Chunk>)
    requires count <= |m| && s.index <= count && EndsComputed(m, count) && Pending(s, addressEnd)
    ensures ReadLoop(m, count, addressEnd, disk, advance, s, chunks)
            == RR.ReadLoop(m, count, 0, addressEnd, disk, advance, s, chunks)
    decreases count - s.index
  {
    if s.index < count {
      var e := m[s.index];
      assert e.end == EndOf(e.base, e.size);
      if !(s.span != 0 && s.remain != 0 && !e.contiguous) {
        if e.base <= s.start && e.end >= s.start {
          var n := ChunkLength(e.end, addressEnd, s.start);
          assert n == Min(e.end, addressEnd) - s.start + 1;
          assert Sub64(s.remain, n) == Sub32(s.remain, n) == s.remain - n;
          var off := TranslateOffset(0, e, s.start);
          if off + n <= |disk| && s.remain - n != 0 {
            var t := NextState(s, n, advance);
            assert t == RR.NextState(s, n, advance);
            ReadLoopAgrees(m, count, addressEnd, disk, advance, t, chunks + [Chunk(s.index, s.start, off, s.dest, n)]);
          }
        } else {
          ReadLoopAgrees(m, count, addressEnd, disk, advance, RR.SkipState(s), chunks);
        }
      }
    }
  }

  /**
   * For a request of 1 to 2^32 - 1 bytes that does not wrap the address
   * space, on a map filled by BuildDDRMemoryMap, the offline reader makes
   * the reads raw2dump's reader makes at file offset 0, as written and as
   * intended.
   */
  lemma ReadPlanAgrees(m: seq<Entry>, count: nat, disk: seq<u8>, pa: u64, length: u64, advance: bool)
    requires count <= |m| && EndsComputed(m, count)
    requires 1 <= length < U32_LIMIT && pa + length <= U64_LIMIT
    ensures ReadPlan(m, count, disk, pa, length, advance)
            == if advance then RR.ReadPlan(m, count, 0, disk, pa, length) else RR.ReadPlanAsWritten(m, count, 0, disk, pa, length)
  {
    assert EndOf(pa, length) == pa + length - 1;
    ReadLoopAgrees(m, count, EndOf(pa, length), disk, advance, ReadState(0, pa, length, 0, 0), []);
  }

  /**
   * A successful intended read of such a request fills exactly `length`
   * bytes of the buffer, in physical address order; every read comes from
   * a map entry holding its first address, at (address - Base) + Offset, and
   * lies on the disk.
   */
  lemma ReadCoversRequest(m: seq<Entry>, count: nat, disk: seq<u8>, pa: u64, length: u64)
    requires count <= |m| && EndsComputed(m, count)
    requires 1 <= length < U32_LIMIT && pa + length <= U64_LIMIT
    ensures var r := ReadPlan(m, count, disk, pa, length, true);
            AllFaithful(m, count, 0, EndOf(pa, length), r.1) && RR.AllInFile(disk, r.1)
            && (r.0 == STATUS_SUCCESS ==> Consecutive(r.1, pa) && SumCounts(r.1) == length)
  {
    ReadPlanAgrees(m, count, disk, pa, length, true);
    RR.ReadPlanFaithful(m, count, 0, disk, pa, length as u32);
    RR.ReadPlanCoversRequest(m, count, 0, disk, pa, length as u32);
  }

  /**
   * As written, a read that needs two or more sections puts every piece at
   * the start of the buffer.
   */
  lemma AsWrittenSpanningReadOverwrites(m: seq<Entry>, count: nat, disk: seq<u8>, pa: u64, length: u64)
    requires count <= |m| && EndsComputed(m, count)
    requires 1 <= length < U32_LIMIT && pa + length <= U64_LIMIT
    ensures var r := ReadPlan(m, count, disk, pa, length, false);
            RR.AllAtStart(r.1) && (|r.1| >= 2 ==> !Consecutive(r.1, pa))
  {
    ReadPlanAgrees(m, count, disk, pa, length, false);
    RR.AsWrittenSpanningReadOverwrites(m, count, 0, disk, pa, length as u32);
  }

  /** Before the first read, entries that do not hold the address are passed over. */
  lemma {:induction false} ReadLoopSkips(m: seq<Entry>, count: nat, addressEnd: u64, disk: seq<u8>, advance: bool,
                                         s: ReadState, i: nat)
    requires s.index <= i <= count <= |m| && s.span == 0
    requires forall j :: s.index <= j < i ==> !(m[j].base <= s.start <= EndOf(m[j].base, m[j].size))
    ensures ReadLoop(m, count, addressEnd, disk, advance, s, [])
            == ReadLoop(m, count, addressEnd, disk, advance, s.(index := i), [])
    decreases i - s.index
  {
    if s.index < i {
      ReadLoopSkips(m, count, addressEnd, disk, advance, RR.SkipState(s), i);
    }
  }

  /** A physical address no section [Base, Base + Size - 1] holds cannot be read, whatever the length. */
  lemma UnmappedAddressFails(m: seq<Entry>, count: nat, disk: seq<u8>, pa: u64, length: u64)
    requires count <= |m|
    requires forall j :: 0 <= j < count ==> !(m[j].base <= pa <= EndOf(m[j].base, m[j].size))
    ensures ReadPlan(m, count, disk, pa, length, true) == (STATUS_UNSUCCESSFUL, [])
  {
    ReadLoopSkips(m, count, EndOf(pa, length), disk, true, ReadState(0, pa, length, 0, 0), count);
  }

  /**
   * ReadFromDDRSectionByPhysicalAddress of the offline tool, with the
   * destination advanced after each read.
   */
  method ReadFromDDRSectionByPhysicalAddress(ctx: OffContext, physicalAddress: u64, length: u64,
                                             disk: seq<u8>, buffer: array<u8>) returns (status: NtStatus)
    requires ctx.ddrMemoryMapCount as nat <= |ctx.ddrMemoryMap|
    modifies buffer
    ensures var plan := ReadPlan(ctx.ddrMemoryMap, ctx.ddrMemoryMapCount as nat, disk, physicalAddress, length, true);
            status == plan.0 && buffer[..] == ApplyChunks(old(buffer[..]), disk, plan.1)
  {
    ghost var plan := ReadPlan(ctx.ddrMemoryMap, ctx.ddrMemoryMapCount as nat, disk, physicalAddress, length, true);
    var count := ctx.ddrMemoryMapCount as nat;
    var m := ctx.ddrMemoryMap;
    var addressStart := physicalAddress;
    var addressEnd := EndOf(physicalAddress, length);
    var bytesRemain: u64 := length;
    var sectionSpanCount: u32 := 0;
    var dest: nat := 0;
    ghost var chunks: seq<Chunk> := [];
    var index := 0;
    while index < count
      invariant index <= count
      invariant ReadLoop(m, count, addressEnd, disk, true,
                         ReadState(index, addressStart, bytesRemain, sectionSpanCount, dest), chunks) == plan
      invariant buffer[..] == ApplyChunks(old(buffer[..]), disk, chunks)
    {
      var e := m[index];
      var s := ReadState(index, addressStart, bytesRemain, sectionSpanCount, dest);
      if sectionSpanCount != 0 && bytesRemain != 0 && !e.contiguous {
        return STATUS_INVALID_PARAMETER;
      }
      var sectionEnd := EndOf(e.base, e.size);
      if e.base <= addressStart && sectionEnd >= addressStart {
        var done, r, s';
        done, r, s', chunks := ReadSection(m, count, addressEnd, disk, buffer, old(buffer[..]), s, chunks);
        if done {
          return r;
        }
        addressStart, bytesRemain, sectionSpanCount, dest := s'.start, s'.remain, s'.span, s'.dest;
      } else {
        assert ReadLoop(m, count, addressEnd, disk, true, s, chunks)
            == ReadLoop(m, count, addressEnd, disk, true, RR.SkipState(s), chunks);
      }
      index := index + 1;
    }
    status := STATUS_UNSUCCESSFUL;
  }

  /**
   * One read of the offline reader from the entry holding the current
   * address: a failed read ends the reader; otherwise the bytes are copied
   * to the buffer at its current position, and the reader either has all
   * its bytes or moves on with the next state.
   */
  method ReadSection(m: seq<Entry>, count: nat, addressEnd: u64, disk: seq<u8>,
                     buffer: array<u8>, ghost b0: seq<u8>, s: ReadState, ghost chunks: seq<Chunk>)
    returns (done: bool, status: NtStatus, s': ReadState, ghost chunks': seq<Chunk>)
    requires count <= |m| && s.index < count
    requires !(s.span != 0 && s.remain != 0 && !m[s.index].contiguous)
    requires m[s.index].base <= s.start <= EndOf(m[s.index].base, m[s.index].size)
    requires buffer[..] == ApplyChunks(b0, disk, chunks)
    modifies buffer
    ensures var r := ReadLoop(m, count, addressEnd, disk, true, s, chunks);
            done ==> status == r.0 && buffer[..] == ApplyChunks(b0, disk, r.1)
    ensures !done ==> s'.index == s.index + 1
                      && ReadLoop(m, count, addressEnd, disk, true, s', chunks')
                         == ReadLoop(m, count, addressEnd, disk, true, s, chunks)
                      && buffer[..] == ApplyChunks(b0, disk, chunks')
  {
    var e := m[s.index];
    var bytesToRead := ChunkLength(EndOf(e.base, e.size), addressEnd, s.start);
    var offset := TranslateOffset(0, e, s.start);
    s' := s;
    chunks' := chunks;
    if offset + bytesToRead > |disk| {
      return true, STATUS_UNSUCCESSFUL, s', chunks';
    }
    var c := Chunk(s.index, s.start, offset, s.dest, bytesToRead);
    CopyToBuffer(buffer, s.dest, disk, offset, bytesToRead);
    ApplyChunksSnoc(b0, disk, chunks, c);
    chunks' := chunks + [c];
    var bytesRemain := Sub64(s.remain, bytesToRead);
    if bytesRemain == 0 {
      return true, STATUS_SUCCESS, s', chunks';
    }
    s' := NextState(s, bytesToRead, true);
    done, status := false, STATUS_SUCCESS;
  }

  // ---------------------------------------------------------------- write by physical address

  /**
   * WriteToDumpByPhysicalAddress of the offline tool. The runs come from the
   * 64-bit or the 32-bit header as Is64Bit says; either way BasePage and
   * PageCount are widened to LONGLONG before the multiplication by
   * PAGE_SIZE. The first run holding [PA, PA + Size - 1] gives the file
   * offset; no such run is STATUS_INVALID_PARAMETER. A computed offset of 0
   * issues no write and leaves STATUS_UNSUCCESSFUL; otherwise the write's
   * outcome `writeStatus` decides. `writtenAt` is the offset written, if any.
   */
  method WriteToDumpByPhysicalAddress(ctx: OffContext, desc: RR.PhysicalMemoryDescriptor, physicalAddress: u64, size: u32,
                                      writeStatus: NtStatus) returns (status: NtStatus, writtenAt: Option<u64>)
    requires desc.numberOfRuns as nat <= |desc.runs|
    requires ctx.is64Bit || RR.Descriptor32(desc)
    ensures var endPA := Sub64(Add64(physicalAddress, size), 1);
            var found := RR.FindRun(desc.runs, desc.numberOfRuns as nat, true, physicalAddress, endPA, 0, 0);
            match found
            case None => status == STATUS_INVALID_PARAMETER && writtenAt.None?
            case Some((k, offset)) =>
              var io := RR.IoOffset(physicalAddress, desc.runs[k], true, offset, ctx.ddrFileOffset);
              (io == 0 ==> status == STATUS_UNSUCCESSFUL && writtenAt.None?)
              && (io != 0 ==> writtenAt == Some(io) && status == (if NtSuccess(writeStatus) then STATUS_SUCCESS else writeStatus))
  {
    var startPA := physicalAddress;
    var endPA := Sub64(Add64(startPA, size), 1);
    var offset: u64 := 0;
    var indexPD := 0;
    var n := desc.numberOfRuns as nat;
    while indexPD < n
      invariant indexPD <= n
      invariant RR.FindRun(desc.runs, n, true, startPA, endPA, indexPD, offset)
             == RR.FindRun(desc.runs, n, true, startPA, endPA, 0, 0)
    {
      var run := desc.runs[indexPD];
      if ToSigned64(startPA) >= ToSigned64(RR.RunStart(run, true)) && ToSigned64(RR.RunEnd(run, true)) >= ToSigned64(endPA) {
        var ioOffset := RR.IoOffset(startPA, run, true, offset, ctx.ddrFileOffset);
        if ioOffset == 0 {
          return STATUS_UNSUCCESSFUL, None;
        }
        writtenAt := Some(ioOffset);
        status := if NtSuccess(writeStatus) then STATUS_SUCCESS else writeStatus;
        return;
      }
      offset := Add64(offset, RR.RunLength(run, true));
      indexPD := indexPD + 1;
    }
    return STATUS_INVALID_PARAMETER, None;
  }

  /**
   * When nothing wraps, the write offset is the address's distance into its
   * run plus the lengths of the runs before it plus DDRFileOffset, so the
   * write is skipped only for the very first byte of the DDR part laid at
   * file offset 0: DDRFileOffset 0, the run's first address, and no bytes
   * in the runs before it.
   */
  lemma WriteSkippedOnlyAtOffsetZero(runs: seq<RR.MemoryRun>, n: nat, startPA: u64, size: u32, ddrFileOffset: u64)
    requires n <= |runs|
    requires 1 <= size && startPA + size <= 0x8000_0000_0000_0000
    requires forall t :: 0 <= t < n ==> RR.RunStart(runs[t], true) + RR.RunLength(runs[t], true) <= 0x8000_0000_0000_0000
                                        && 1 <= RR.RunLength(runs[t], true)
    requires RR.PlainLengthBefore(runs, true, 0, n) + ddrFileOffset < 0x8000_0000_0000_0000
    ensures var endPA := Sub64(Add64(startPA, size), 1);
            var found := RR.FindRun(runs, n, true, startPA, endPA, 0, 0);
            found.Some? ==>
              var k := found.value.0;
              (RR.IoOffset(startPA, runs[k], true, found.value.1, ddrFileOffset) == 0
               <==> ddrFileOffset == 0 && startPA == RR.RunStart(runs[k], true) && RR.PlainLengthBefore(runs, true, 0, k) == 0)
  {
    RR.WriteOffsetIsRunLayout(runs, n, true, startPA, size, ddrFileOffset);
  }
}
