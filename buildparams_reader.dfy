// The offline dump service's physical-address reader and the classification
// of where the raw dump was found (OffDmpSvc/lib/buildparams.cpp).
module BuildParamsReader {
  import opened Machine
  import opened Status
  import opened DdrMemoryMap
  import opened BuildParams

  // ------------------------------------------------------ dump location

  /**
   * LocateAndCopyRawDump: location and format start INVALID; a found
   * SVRawDump partition gives (EMMC, RAW); otherwise a found rawdump.bin on
   * the SD card gives (SD, FILE); otherwise they stay INVALID. The two
   * searches are the HRESULTs of FindDumpPartition and
   * FindNewestRawDumpDotBinPath.
   */
  function LocateAndCopyRawDump(ctx: DmpContext, partitionSearch: HResult, sdSearch: HResult): (r: (HResult, DmpContext))
    ensures r.1 == ctx.(sblDumpLocation := r.1.sblDumpLocation, sblDumpFormat := r.1.sblDumpFormat)
    ensures Succeeded(partitionSearch) ==> r.0 == partitionSearch
    ensures !Succeeded(partitionSearch) ==> r.0 == sdSearch
    ensures r.1.sblDumpLocation == SBL_DUMP_LOCATION_INVALID <==> !Succeeded(r.0)
    ensures r.1.sblDumpLocation == SBL_DUMP_LOCATION_EMMC <==> Succeeded(partitionSearch)
    ensures r.1.sblDumpLocation == SBL_DUMP_LOCATION_EMMC <==> r.1.sblDumpFormat == SBL_DUMP_FORMAT_RAW
    ensures r.1.sblDumpLocation == SBL_DUMP_LOCATION_SD <==> r.1.sblDumpFormat == SBL_DUMP_FORMAT_FILE
    ensures r.1.sblDumpLocation == SBL_DUMP_LOCATION_INVALID <==> r.1.sblDumpFormat == SBL_DUMP_FORMAT_INVALID
  {
    var cleared := ctx.(sblDumpLocation := SBL_DUMP_LOCATION_INVALID, sblDumpFormat := SBL_DUMP_FORMAT_INVALID);
    if Succeeded(partitionSearch) then
      (partitionSearch, cleared.(sblDumpLocation := SBL_DUMP_LOCATION_EMMC, sblDumpFormat := SBL_DUMP_FORMAT_RAW))
    else if !Succeeded(sdSearch) then
      (sdSearch, cleared)
    else
      (sdSearch, cleared.(sblDumpLocation := SBL_DUMP_LOCATION_SD, sblDumpFormat := SBL_DUMP_FORMAT_FILE))
  }

  // ------------------------------------------------------------- reader

  /** The read the loop makes at state s: from the current address to the entry's End or the request's end. */
  function ChunkAt(m: seq<Entry>, diskOffset: u64, addressEnd: u64, s: ReadState): (c: Chunk)
    requires s.index < |m|
    ensures c.index == s.index && c.address == s.start && c.dest == s.dest && c.count < U32_LIMIT
  {
    var e := m[s.index];
    Chunk(s.index, s.start, TranslateOffset(diskOffset, e, s.start), s.dest, ChunkLength(e.end, addressEnd, s.start))
  }

  /** The loop variables after a read of n bytes that leaves bytes to go. */
  function NextState(s: ReadState, n: u32): ReadState
  {
    ReadState(s.index + 1, Add64(s.start, n), Sub64(s.remain, n), Add32(s.span, 1), s.dest + n)
  }

  /**
   * The reader's loop from state s, given the reads already made: the
   * HRESULT it returns and every read it makes. Exhausting the map leaves
   * the initial E_FAIL, a span into an entry that is not Contiguous gives
   * HRESULT_FROM_NT(STATUS_INVALID_PARAMETER), and S_OK comes only after a
   * read.
   */
  function ReadLoop(m: seq<Entry>, count: nat, diskOffset: u64, addressEnd: u64, s: ReadState, chunks: seq<Chunk>)
    : (r: (HResult, seq<Chunk>))
    requires count <= |m| && s.index <= count
    ensures |chunks| <= |r.1| && r.1[..|chunks|] == chunks
    ensures r.0 == S_OK || r.0 == E_FAIL || r.0 == FromNt(STATUS_INVALID_PARAMETER)
    ensures r.0 == S_OK ==> |chunks| < |r.1|
    decreases count - s.index
  {
    if s.index == count then (E_FAIL, chunks)
    else
      var e := m[s.index];
      if s.span != 0 && s.remain != 0 && !e.contiguous then (FromNt(STATUS_INVALID_PARAMETER), chunks)
      else if e.base <= s.start && e.end >= s.start then
        var c := ChunkAt(m, diskOffset, addressEnd, s);
        if Sub64(s.remain, c.count) != 0 then
          ReadLoop(m, count, diskOffset, addressEnd, NextState(s, c.count), chunks + [c])
        else (S_OK, chunks + [c])
      else ReadLoop(m, count, diskOffset, addressEnd, s.(index := s.index + 1), chunks)
  }

  /** The whole read of `length` bytes at physical address pa over the first `count` map entries. */
  function ReadPlan(m: seq<Entry>, count: nat, diskOffset: u64, pa: u64, length: u64): (HResult, seq<Chunk>)
    requires count <= |m|
  {
    ReadLoop(m, count, diskOffset, EndOf(pa, length), ReadState(0, pa, length, 0, 0), [])
  }

  /**
   * ReadFromDDRSectionByPhysicalAddress. Walks the map for the entry holding
   * the current address, reads up to its End or the request's end, and
   * moves on only into Contiguous entries. A failed device read is only
   * logged, so the result does not depend on it.
   */
  method ReadFromDDRSectionByPhysicalAddress(ctx: DmpContext, physicalAddress: u64, length: u64,
                                             disk: seq<u8>, buffer: array<u8>) returns (hr: HResult)
    requires ctx.ddrMemoryMapCount as nat <= |ctx.ddrMemoryMap|
    modifies buffer
    ensures var plan := ReadPlan(ctx.ddrMemoryMap, ctx.ddrMemoryMapCount as nat, ctx.diskOffset, physicalAddress, length);
            hr == plan.0 && buffer[..] == ApplyChunks(old(buffer[..]), disk, plan.1)
  {
    ghost var plan := ReadPlan(ctx.ddrMemoryMap, ctx.ddrMemoryMapCount as nat, ctx.diskOffset, physicalAddress, length);
    var count := ctx.ddrMemoryMapCount as nat;
    var m := ctx.ddrMemoryMap;
    var addressStart := physicalAddress;
    var addressEnd := EndOf(physicalAddress, length);
    var bytesRemain := length;
    var sectionSpanCount: u32 := 0;
    var dest: nat := 0;
    ghost var chunks: seq<Chunk> := [];
    var index := 0;
    while index < count
      invariant index <= count
      invariant ReadLoop(m, count, ctx.diskOffset, addressEnd,
                         ReadState(index, addressStart, bytesRemain, sectionSpanCount, dest), chunks) == plan
      invariant buffer[..] == ApplyChunks(old(buffer[..]), disk, chunks)
    {
      var e := m[index];
      var s := ReadState(index, addressStart, bytesRemain, sectionSpanCount, dest);
      if sectionSpanCount != 0 && bytesRemain != 0 && !e.contiguous {
        return FromNt(STATUS_INVALID_PARAMETER);
      }
      if e.base <= addressStart && e.end >= addressStart {
        var done, s';
        done, s', chunks := ReadSection(m, count, ctx.diskOffset, addressEnd, disk, buffer, old(buffer[..]), s, chunks);
        if done {
          return S_OK;
        }
        addressStart, bytesRemain, sectionSpanCount, dest := s'.start, s'.remain, s'.span, s'.dest;
        assert ReadState(index + 1, addressStart, bytesRemain, sectionSpanCount, dest) == s';
      } else {
        ReadLoopPasses(m, count, ctx.diskOffset, addressEnd, s, chunks);
        assert ReadState(index + 1, addressStart, bytesRemain, sectionSpanCount, dest) == s.(index := index + 1);
      }
      index := index + 1;
    }
    hr := E_FAIL;
  }

  /**
   * One turn of the reader over an entry that holds the current address:
   * the read, and either the end of the loop with S_OK or the state it
   * goes on from.
   */
  method ReadSection(m: seq<Entry>, count: nat, diskOffset: u64, addressEnd: u64, disk: seq<u8>,
                     buffer: array<u8>, ghost b0: seq<u8>, s: ReadState, ghost chunks: seq<Chunk>)
    returns (done: bool, s': ReadState, ghost chunks': seq<Chunk>)
    requires count <= |m| && s.index < count
    requires !(s.span != 0 && s.remain != 0 && !m[s.index].contiguous)
    requires m[s.index].base <= s.start <= m[s.index].end
    requires buffer[..] == ApplyChunks(b0, disk, chunks)
    modifies buffer
    ensures var r := ReadLoop(m, count, diskOffset, addressEnd, s, chunks);
            done ==> r.0 == S_OK && buffer[..] == ApplyChunks(b0, disk, r.1)
    ensures !done ==> s'.index == s.index + 1
                      && ReadLoop(m, count, diskOffset, addressEnd, s', chunks')
                         == ReadLoop(m, count, diskOffset, addressEnd, s, chunks)
                      && buffer[..] == ApplyChunks(b0, disk, chunks')
  {
    var e := m[s.index];
    var bytesToRead := ChunkLength(e.end, addressEnd, s.start);
    var offset := TranslateOffset(diskOffset, e, s.start);
    ReadLoopReads(m, count, diskOffset, addressEnd, s, chunks);
    var c := Chunk(s.index, s.start, offset, s.dest, bytesToRead);
    assert c == ChunkAt(m, diskOffset, addressEnd, s);
    CopyToBuffer(buffer, s.dest, disk, offset, bytesToRead);
    ApplyChunksSnoc(b0, disk, chunks, c);
    chunks' := chunks + [c];
    var bytesRemain := Sub64(s.remain, bytesToRead);
    s' := NextState(s, bytesToRead);
    done := bytesRemain == 0;
  }

  /** An entry that does not hold the current address is passed over. */
  lemma ReadLoopPasses(m: seq<Entry>, count: nat, diskOffset: u64, addressEnd: u64, s: ReadState, chunks: seq<Chunk>)
    requires count <= |m| && s.index < count
    requires !(s.span != 0 && s.remain != 0 && !m[s.index].contiguous)
    requires !(m[s.index].base <= s.start <= m[s.index].end)
    ensures ReadLoop(m, count, diskOffset, addressEnd, s, chunks)
            == ReadLoop(m, count, diskOffset, addressEnd, s.(index := s.index + 1), chunks)
  {
  }

  // ------------------------------------------------------ reader lemmas

  lemma {:induction false} ReadLoopFaithful(m: seq<Entry>, count: nat, diskOffset: u64, addressEnd: u64,
                                            s: ReadState, chunks: seq<Chunk>)
    requires count <= |m| && s.index <= count
    requires AllFaithful(m, count, diskOffset, addressEnd, chunks)
    ensures AllFaithful(m, count, diskOffset, addressEnd, ReadLoop(m, count, diskOffset, addressEnd, s, chunks).1)
    decreases count - s.index
  {
    if s.index < count {
      var e := m[s.index];
      if !(s.span != 0 && s.remain != 0 && !e.contiguous) {
        if e.base <= s.start && e.end >= s.start {
          var c := ChunkAt(m, diskOffset, addressEnd, s);
          ReadLoopReads(m, count, diskOffset, addressEnd, s, chunks);
          assert ChunkFaithful(m, count, diskOffset, addressEnd, c);
          AllFaithfulSnoc(m, count, diskOffset, addressEnd, chunks, c);
          if Sub64(s.remain, c.count) != 0 {
            ReadLoopFaithful(m, count, diskOffset, addressEnd, NextState(s, c.count), chunks + [c]);
          }
        } else {
          ReadLoopPasses(m, count, diskOffset, addressEnd, s, chunks);
          ReadLoopFaithful(m, count, diskOffset, addressEnd, s.(index := s.index + 1), chunks);
        }
      }
    }
  }

  /**
   * Every read of the reader comes from an entry that holds its first
   * address, at diskoffset + (address - Base) + Offset, and runs to that
   * entry's End or the request's end.
   */
  lemma ReadPlanFaithful(m: seq<Entry>, count: nat, diskOffset: u64, pa: u64, length: u64)
    requires count <= |m|
    ensures AllFaithful(m, count, diskOffset, EndOf(pa, length), ReadPlan(m, count, diskOffset, pa, length).1)
  {
    assert ReadPlan(m, count, diskOffset, pa, length) ==
           ReadLoop(m, count, diskOffset, EndOf(pa, length), ReadState(0, pa, length, 0, 0), []);
    ReadLoopFaithful(m, count, diskOffset, EndOf(pa, length), ReadState(0, pa, length, 0, 0), []);
  }

  /** Before the first read, entries that do not hold the address are passed over. */
  lemma {:induction false} ReadLoopSkips(m: seq<Entry>, count: nat, diskOffset: u64, addressEnd: u64,
                                         s: ReadState, i: nat)
    requires s.index <= i <= count <= |m| && s.span == 0
    requires forall j :: s.index <= j < i ==> !(m[j].base <= s.start <= m[j].end)
    ensures ReadLoop(m, count, diskOffset, addressEnd, s, []) == ReadLoop(m, count, diskOffset, addressEnd, s.(index := i), [])
    decreases i - s.index
  {
    if s.index < i {
      ReadLoopSkips(m, count, diskOffset, addressEnd, s.(index := s.index + 1), i);
    }
  }

  /**
   * Over a map with no Contiguous entry, which is what this file's
   * BuildDDRMemoryMap produces, a read succeeds exactly when the first entry
   * holding its first byte also holds its last; it is then a single read of
   * the whole length. When that entry is too short and another entry follows
   * it, the read fails with STATUS_INVALID_PARAMETER.
   */
  lemma NoContiguousReadIsSingleSection(m: seq<Entry>, count: nat, diskOffset: u64, pa: u64, length: u64)
    requires count <= |m|
    requires forall j :: 0 <= j < count ==> !m[j].contiguous
    requires 1 <= length < U32_LIMIT && pa + length <= U64_LIMIT
    ensures var r := ReadPlan(m, count, diskOffset, pa, length);
            var first := FirstContaining(m[..count], pa);
            (r.0 == S_OK <==> first.Some? && pa + length - 1 <= m[first.value].end)
            && (r.0 == S_OK ==> |r.1| == 1 && r.1[0].address == pa && r.1[0].dest == 0 && r.1[0].count == length)
            && (first.Some? && m[first.value].end < pa + length - 1 && first.value + 1 < count ==>
                  r.0 == FromNt(STATUS_INVALID_PARAMETER))
  {
    var addressEnd := EndOf(pa, length);
    var s0 := ReadState(0, pa, length, 0, 0);
    var first := FirstContaining(m[..count], pa);
    if first.None? {
      ReadLoopSkips(m, count, diskOffset, addressEnd, s0, count);
    } else {
      var i := first.value;
      assert forall j :: 0 <= j < i ==> m[..count][j] == m[j];
      ReadLoopSkips(m, count, diskOffset, addressEnd, s0, i);
      var e := m[i];
      var n := ChunkLength(e.end, addressEnd, pa);
      if e.end < pa + length - 1 {
        assert n == e.end - pa + 1;
        var next := ReadState(i + 1, Add64(pa, n), Sub64(length, n), Add32(0, 1), n);
        if i + 1 < count {
          assert !m[i + 1].contiguous;
        }
      }
    }
  }

  lemma {:induction false} ReadLoopCovers(m: seq<Entry>, count: nat, diskOffset: u64, pa: u64, addressEnd: u64,
                                          s: ReadState, chunks: seq<Chunk>)
    requires count <= |m| && s.index <= count
    requires addressEnd as int - pa + 1 < U32_LIMIT
    requires CoveredSoFar(chunks, pa, addressEnd, s)
    ensures var r := ReadLoop(m, count, diskOffset, addressEnd, s, chunks);
            r.0 == S_OK ==> Consecutive(r.1, pa) && SumCounts(r.1) == addressEnd - pa + 1
    decreases count - s.index, 2
  {
    if s.index < count {
      var e := m[s.index];
      if !(s.span != 0 && s.remain != 0 && !e.contiguous) {
        if e.base <= s.start && e.end >= s.start {
          ReadLoopCoversRead(m, count, diskOffset, pa, addressEnd, s, chunks);
        } else {
          assert ReadLoop(m, count, diskOffset, addressEnd, s, chunks)
              == ReadLoop(m, count, diskOffset, addressEnd, s.(index := s.index + 1), chunks);
          ReadLoopCovers(m, count, diskOffset, pa, addressEnd, s.(index := s.index + 1), chunks);
        }
      }
    }
  }

  /** One turn of the loop over an entry that holds the current address. */
  lemma ReadLoopReads(m: seq<Entry>, count: nat, diskOffset: u64, addressEnd: u64, s: ReadState, chunks: seq<Chunk>)
    requires count <= |m| && s.index < count
    requires !(s.span != 0 && s.remain != 0 && !m[s.index].contiguous)
    requires m[s.index].base <= s.start <= m[s.index].end
    ensures var c := ChunkAt(m, diskOffset, addressEnd, s);
            ReadLoop(m, count, diskOffset, addressEnd, s, chunks)
              == if Sub64(s.remain, c.count) != 0
                 then ReadLoop(m, count, diskOffset, addressEnd, NextState(s, c.count), chunks + [c])
                 else (S_OK, chunks + [c])
  {
  }

  /** The case of ReadLoopCovers where the current entry holds the current address. */
  lemma {:induction false} ReadLoopCoversRead(m: seq<Entry>, count: nat, diskOffset: u64, pa: u64, addressEnd: u64,
                                              s: ReadState, chunks: seq<Chunk>)
    requires count <= |m| && s.index < count
    requires addressEnd as int - pa + 1 < U32_LIMIT
    requires CoveredSoFar(chunks, pa, addressEnd, s)
    requires !(s.span != 0 && s.remain != 0 && !m[s.index].contiguous)
    requires m[s.index].base <= s.start <= m[s.index].end
    ensures var r := ReadLoop(m, count, diskOffset, addressEnd, s, chunks);
            r.0 == S_OK ==> Consecutive(r.1, pa) && SumCounts(r.1) == addressEnd - pa + 1
    decreases count - s.index, 1
  {
    var e := m[s.index];
    var n := ChunkLength(e.end, addressEnd, s.start);
    ReadLoopReads(m, count, diskOffset, addressEnd, s, chunks);
    if Sub64(s.remain, n) != 0 {
      ReadLoopCoversOnward(m, count, diskOffset, pa, addressEnd, s, chunks);
    } else {
      CoverStep(chunks, pa, addressEnd, s, e.end, s.index + 1, TranslateOffset(diskOffset, e, s.start), Add32(s.span, 1));
    }
  }

  /** A read that leaves bytes to go: the rest of the loop still covers the request. */
  lemma {:induction false} ReadLoopCoversOnward(m: seq<Entry>, count: nat, diskOffset: u64, pa: u64, addressEnd: u64,
                                                s: ReadState, chunks: seq<Chunk>)
    requires count <= |m| && s.index < count
    requires addressEnd as int - pa + 1 < U32_LIMIT
    requires CoveredSoFar(chunks, pa, addressEnd, s)
    requires s.start <= m[s.index].end
    requires Sub64(s.remain, ChunkLength(m[s.index].end, addressEnd, s.start)) != 0
    ensures var c := ChunkAt(m, diskOffset, addressEnd, s);
            var r := ReadLoop(m, count, diskOffset, addressEnd, NextState(s, c.count), chunks + [c]);
            r.0 == S_OK ==> Consecutive(r.1, pa) && SumCounts(r.1) == addressEnd - pa + 1
    decreases count - s.index, 0
  {
    var e := m[s.index];
    var c := ChunkAt(m, diskOffset, addressEnd, s);
    CoverStep(chunks, pa, addressEnd, s, e.end, s.index + 1, TranslateOffset(diskOffset, e, s.start), Add32(s.span, 1));
    ReadLoopCovers(m, count, diskOffset, pa, addressEnd, NextState(s, c.count), chunks + [c]);
  }

  /**
   * A successful read of 1 <= length < 2^32 bytes that does not wrap the
   * address space fills exactly `length` bytes of the buffer, in physical
   * address order, without gaps or overlaps.
   */
  lemma ReadPlanCoversRequest(m: seq<Entry>, count: nat, diskOffset: u64, pa: u64, length: u64)
    requires count <= |m|
    requires 1 <= length < U32_LIMIT && pa + length <= U64_LIMIT
    ensures var r := ReadPlan(m, count, diskOffset, pa, length);
            r.0 == S_OK ==> Consecutive(r.1, pa) && SumCounts(r.1) == length
  {
    ReadLoopCovers(m, count, diskOffset, pa, EndOf(pa, length), ReadState(0, pa, length, 0, 0), []);
  }
}
