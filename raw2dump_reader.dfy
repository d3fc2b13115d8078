// raw2dump's reads and writes by physical address: the DDR section reader,
// the check of the dump's physical memory runs against the DDR map, and the
// write into the Windows dump by physical address (raw2dump/src/dumputil.cpp).
module Raw2DumpReader {
  import opened Machine
  import opened Status
  import opened DdrMemoryMap
  import opened Raw2DumpUtil

  // ------------------------------------------------------------- reader

  /** The loop variables after a read of n bytes: the next entry, the next address, fewer bytes to go. */
  function NextState(s: ReadState, n: u32, advance: bool): (t: ReadState)
    requires s.remain < U32_LIMIT
    ensures t.index == s.index + 1 && t.remain < U32_LIMIT
  {
    ReadState(s.index + 1, Add64(s.start, n), Sub32(s.remain, n), Add32(s.span, 1), if advance then s.dest + n else s.dest)
  }

  /** The loop variables after an entry that does not hold the current address. */
  function SkipState(s: ReadState): (t: ReadState)
    ensures t.index == s.index + 1 && t.start == s.start && t.remain == s.remain && t.span == s.span && t.dest == s.dest
  {
    ReadState(s.index + 1, s.start, s.remain, s.span, s.dest)
  }

  /**
   * The reader's loop from state s, given the reads already made: the
   * status it returns and every read it completes. A read is positioned at
   * fileOffset + (address - Base) + Offset in the raw file; it fails (and
   * the reader leaves with STATUS_UNSUCCESSFUL) when that range is not in
   * the file. `advance` says whether the destination moves on after a read:
   * the code as written moves `Buffer` but reads through `temp`, so every
   * read lands at the start of the buffer.
   */
  function ReadLoop(m: seq<Entry>, count: nat, fileOffset: u64, addressEnd: u64, rawFile: seq<u8>, advance: bool,
                    s: ReadState, chunks: seq<Chunk>): (NtStatus, seq<Chunk>)
    requires count <= |m| && s.index <= count && s.remain < U32_LIMIT
    decreases count - s.index
  {
    if s.index == count then (STATUS_UNSUCCESSFUL, chunks)
    else
      var e := m[s.index];
      if s.span != 0 && s.remain != 0 && !e.contiguous then (STATUS_INVALID_PARAMETER, chunks)
      else if e.base <= s.start && e.end >= s.start then
        var n := ChunkLength(e.end, addressEnd, s.start);
        var off := TranslateOffset(fileOffset, e, s.start);
        if off + n > |rawFile| then (STATUS_UNSUCCESSFUL, chunks)
        else
          var c := Chunk(s.index, s.start, off, s.dest, n);
          var remain := Sub32(s.remain, n);
          if remain != 0 then
            ReadLoop(m, count, fileOffset, addressEnd, rawFile, advance,
                     NextState(s, n, advance),
                     chunks + [c])
          else (STATUS_SUCCESS, chunks + [c])
      else ReadLoop(m, count, fileOffset, addressEnd, rawFile, advance, SkipState(s), chunks)
  }

  /** The read of `length` bytes at physical address pa as written: every read lands at the buffer's start. */
  function ReadPlanAsWritten(m: seq<Entry>, count: nat, fileOffset: u64, rawFile: seq<u8>, pa: u64, length: u32)
    : (NtStatus, seq<Chunk>)
    requires count <= |m|
  {
    ReadLoop(m, count, fileOffset, EndOf(pa, length), rawFile, false, ReadState(0, pa, length, 0, 0), [])
  }

  /** The intended read: each read lands after the previous one. */
  function ReadPlan(m: seq<Entry>, count: nat, fileOffset: u64, rawFile: seq<u8>, pa: u64, length: u32)
    : (NtStatus, seq<Chunk>)
    requires count <= |m|
  {
    ReadLoop(m, count, fileOffset, EndOf(pa, length), rawFile, true, ReadState(0, pa, length, 0, 0), [])
  }

  /**
   * ReadFromDDRSectionByPhysicalAddress, with the destination advanced
   * after each read. Walks the map for the entry holding the current
   * address, reads up to its End or the request's end, moves on only into
   * Contiguous entries, and leaves with STATUS_UNSUCCESSFUL on a failed or
   * short read or when the map is exhausted.
   */
  method ReadFromDDRSectionByPhysicalAddress(ctx: DmpContext, physicalAddress: u64, length: u32,
                                             rawFile: seq<u8>, buffer: array<u8>) returns (status: NtStatus)
    requires ctx.ddrMemoryMapCount as nat <= |ctx.ddrMemoryMap|
    modifies buffer
    ensures var plan := ReadPlan(ctx.ddrMemoryMap, ctx.ddrMemoryMapCount as nat, ctx.fileOffset, rawFile, physicalAddress, length);
            status == plan.0 && buffer[..] == ApplyChunks(old(buffer[..]), rawFile, plan.1)
  {
    ghost var plan := ReadPlan(ctx.ddrMemoryMap, ctx.ddrMemoryMapCount as nat, ctx.fileOffset, rawFile, physicalAddress, length);
    var count := ctx.ddrMemoryMapCount as nat;
    var m := ctx.ddrMemoryMap;
    var addressStart := physicalAddress;
    var addressEnd := EndOf(physicalAddress, length);
    var bytesRemain: u32 := length;
    var sectionSpanCount: u32 := 0;
    var dest: nat := 0;
    ghost var chunks: seq<Chunk> := [];
    var index := 0;
    while index < count
      invariant index <= count
      invariant ReadLoop(m, count, ctx.fileOffset, addressEnd, rawFile, true,
                         ReadState(index, addressStart, bytesRemain, sectionSpanCount, dest), chunks) == plan
      invariant buffer[..] == ApplyChunks(old(buffer[..]), rawFile, chunks)
    {
      var e := m[index];
      var s := ReadState(index, addressStart, bytesRemain, sectionSpanCount, dest);
      if sectionSpanCount != 0 && bytesRemain != 0 && !e.contiguous {
        return STATUS_INVALID_PARAMETER;
      }
      if e.base <= addressStart && e.end >= addressStart {
        var done, r, s';
        done, r, s', chunks := ReadSection(m, count, ctx.fileOffset, addressEnd, rawFile, buffer, old(buffer[..]), s, chunks);
        if done {
          return r;
        }
        addressStart, bytesRemain, sectionSpanCount, dest := s'.start, s'.remain, s'.span, s'.dest;
      } else {
        ReadLoopPasses(m, count, ctx.fileOffset, addressEnd, rawFile, true, s, chunks);
      }
      index := index + 1;
    }
    status := STATUS_UNSUCCESSFUL;
  }

  /**
   * What one read of `length` bytes at `pa` leaves in a zero-filled buffer
   * of that length: the reader's status and the buffer's contents.
   */
  function DdrRead(ctx: DmpContext, rawFile: seq<u8>, pa: u64, length: u32): (r: (NtStatus, seq<u8>))
    requires ctx.ddrMemoryMapCount as nat <= |ctx.ddrMemoryMap|
    ensures |r.1| == length as nat
    ensures r.0 == STATUS_SUCCESS || r.0 == STATUS_UNSUCCESSFUL || r.0 == STATUS_INVALID_PARAMETER
  {
    ReadLoopStatus(ctx.ddrMemoryMap, ctx.ddrMemoryMapCount as nat, ctx.fileOffset, EndOf(pa, length), rawFile, true,
                   ReadState(0, pa, length, 0, 0), []);
    var plan := ReadPlan(ctx.ddrMemoryMap, ctx.ddrMemoryMapCount as nat, ctx.fileOffset, rawFile, pa, length);
    (plan.0, ApplyChunks(seq(length, _ => 0), rawFile, plan.1))
  }

  /** A read into a fresh buffer allocated with HEAP_ZERO_MEMORY; returns the status and the buffer. */
  method ReadBlock(ctx: DmpContext, pa: u64, length: u32, rawFile: seq<u8>) returns (status: NtStatus, bytes: seq<u8>)
    requires ctx.ddrMemoryMapCount as nat <= |ctx.ddrMemoryMap|
    ensures (status, bytes) == DdrRead(ctx, rawFile, pa, length)
  {
    var buffer := new u8[length](_ => 0);
    assert buffer[..] == seq(length, _ => 0);
    status := ReadFromDDRSectionByPhysicalAddress(ctx, pa, length, rawFile, buffer);
    bytes := buffer[..];
  }

  /**
   * One read of the reader from the entry holding the current address: a
   * failed or short read ends the reader; otherwise the bytes are copied to
   * the buffer at its current position, and the reader either has all its
   * bytes or moves on with the next state.
   */
  method ReadSection(m: seq<Entry>, count: nat, fileOffset: u64, addressEnd: u64, rawFile: seq<u8>,
                     buffer: array<u8>, ghost b0: seq<u8>, s: ReadState, ghost chunks: seq<Chunk>)
    returns (done: bool, status: NtStatus, s': ReadState, ghost chunks': seq<Chunk>)
    requires count <= |m| && s.index < count && s.remain < U32_LIMIT
    requires !(s.span != 0 && s.remain != 0 && !m[s.index].contiguous)
    requires m[s.index].base <= s.start <= m[s.index].end
    requires buffer[..] == ApplyChunks(b0, rawFile, chunks)
    modifies buffer
    ensures var r := ReadLoop(m, count, fileOffset, addressEnd, rawFile, true, s, chunks);
            done ==> status == r.0 && buffer[..] == ApplyChunks(b0, rawFile, r.1)
    ensures !done ==> s'.index == s.index + 1 && s'.remain < U32_LIMIT
                      && ReadLoop(m, count, fileOffset, addressEnd, rawFile, true, s', chunks')
                         == ReadLoop(m, count, fileOffset, addressEnd, rawFile, true, s, chunks)
                      && buffer[..] == ApplyChunks(b0, rawFile, chunks')
  {
    var e := m[s.index];
    var bytesToRead := ChunkLength(e.end, addressEnd, s.start);
    var offset := TranslateOffset(fileOffset, e, s.start);
    ReadLoopReads(m, count, fileOffset, addressEnd, rawFile, true, s, chunks);
    s' := s;
    chunks' := chunks;
    if offset + bytesToRead > |rawFile| {
      return true, STATUS_UNSUCCESSFUL, s', chunks';
    }
    var c := Chunk(s.index, s.start, offset, s.dest, bytesToRead);
    CopyToBuffer(buffer, s.dest, rawFile, offset, bytesToRead);
    ApplyChunksSnoc(b0, rawFile, chunks, c);
    chunks' := chunks + [c];
    var bytesRemain := Sub32(s.remain, bytesToRead);
    if bytesRemain == 0 {
      return true, STATUS_SUCCESS, s', chunks';
    }
    s' := NextState(s, bytesToRead, true);
    done, status := false, STATUS_SUCCESS;
  }

  // ------------------------------------------------------ reader lemmas

  /** Every read of a plan lies inside the raw file. */
  predicate AllInFile(rawFile: seq<u8>, chunks: seq<Chunk>)
  {
    forall k :: 0 <= k < |chunks| ==> chunks[k].diskOffset + chunks[k].count <= |rawFile|
  }

  /** The reads of a plan, as written or intended, are faithful to the map and inside the raw file. */
  lemma {:induction false} ReadLoopFaithful(m: seq<Entry>, count: nat, fileOffset: u64, addressEnd: u64, rawFile: seq<u8>,
                                            advance: bool, s: ReadState, chunks: seq<Chunk>)
    requires count <= |m| && s.index <= count && s.remain < U32_LIMIT
    requires AllFaithful(m, count, fileOffset, addressEnd, chunks) && AllInFile(rawFile, chunks)
    ensures var r := ReadLoop(m, count, fileOffset, addressEnd, rawFile, advance, s, chunks);
            AllFaithful(m, count, fileOffset, addressEnd, r.1) && AllInFile(rawFile, r.1)
    decreases count - s.index, 1
  {
    if s.index < count {
      var e := m[s.index];
      if !(s.span != 0 && s.remain != 0 && !e.contiguous) {
        if e.base <= s.start && e.end >= s.start {
          ReadLoopFaithfulRead(m, count, fileOffset, addressEnd, rawFile, advance, s, chunks);
        } else {
          ReadLoopFaithful(m, count, fileOffset, addressEnd, rawFile, advance, SkipState(s), chunks);
        }
      }
    }
  }

  /** The case of ReadLoopFaithful where the current entry holds the current address. */
  lemma {:induction false} ReadLoopFaithfulRead(m: seq<Entry>, count: nat, fileOffset: u64, addressEnd: u64,
                                                rawFile: seq<u8>, advance: bool, s: ReadState, chunks: seq<Chunk>)
    requires count <= |m| && s.index < count && s.remain < U32_LIMIT
    requires AllFaithful(m, count, fileOffset, addressEnd, chunks) && AllInFile(rawFile, chunks)
    requires !(s.span != 0 && s.remain != 0 && !m[s.index].contiguous)
    requires m[s.index].base <= s.start <= m[s.index].end
    ensures var r := ReadLoop(m, count, fileOffset, addressEnd, rawFile, advance, s, chunks);
            AllFaithful(m, count, fileOffset, addressEnd, r.1) && AllInFile(rawFile, r.1)
    decreases count - s.index, 0
  {
    var e := m[s.index];
    var n := ChunkLength(e.end, addressEnd, s.start);
    var off := TranslateOffset(fileOffset, e, s.start);
    ReadLoopReads(m, count, fileOffset, addressEnd, rawFile, advance, s, chunks);
    if off + n <= |rawFile| {
      var c := Chunk(s.index, s.start, off, s.dest, n);
      assert ChunkFaithful(m, count, fileOffset, addressEnd, c);
      var t := chunks + [c];
      assert AllFaithful(m, count, fileOffset, addressEnd, t) && AllInFile(rawFile, t) by {
        forall k | 0 <= k < |t|
          ensures ChunkFaithful(m, count, fileOffset, addressEnd, t[k]) && t[k].diskOffset + t[k].count <= |rawFile|
        {
          if k < |chunks| { assert t[k] == chunks[k]; }
        }
      }
      if Sub32(s.remain, n) != 0 {
        var s' := NextState(s, n, advance);
        ReadLoopFaithful(m, count, fileOffset, addressEnd, rawFile, advance, s', t);
      }
    }
  }

  /**
   * Every read of the reader comes from a map entry holding its first
   * address, at fileOffset + (address - Base) + Offset, runs to that entry's
   * End or the request's end, and lies inside the raw file.
   */
  lemma ReadPlanFaithful(m: seq<Entry>, count: nat, fileOffset: u64, rawFile: seq<u8>, pa: u64, length: u32)
    requires count <= |m|
    ensures var r := ReadPlan(m, count, fileOffset, rawFile, pa, length);
            AllFaithful(m, count, fileOffset, EndOf(pa, length), r.1) && AllInFile(rawFile, r.1)
  {
    ReadLoopFaithful(m, count, fileOffset, EndOf(pa, length), rawFile, true, ReadState(0, pa, length, 0, 0), []);
  }

  /** The reader returns one of three statuses; an exhausted map is always STATUS_UNSUCCESSFUL. */
  lemma {:induction false} ReadLoopStatus(m: seq<Entry>, count: nat, fileOffset: u64, addressEnd: u64, rawFile: seq<u8>,
                                          advance: bool, s: ReadState, chunks: seq<Chunk>)
    requires count <= |m| && s.index <= count && s.remain < U32_LIMIT
    ensures var r := ReadLoop(m, count, fileOffset, addressEnd, rawFile, advance, s, chunks);
            r.0 == STATUS_SUCCESS || r.0 == STATUS_UNSUCCESSFUL || r.0 == STATUS_INVALID_PARAMETER
    ensures var r := ReadLoop(m, count, fileOffset, addressEnd, rawFile, advance, s, chunks);
            r.0 == STATUS_SUCCESS ==> |r.1| > |chunks|
    decreases count - s.index
  {
    if s.index < count {
      var e := m[s.index];
      if !(s.span != 0 && s.remain != 0 && !e.contiguous) {
        if e.base <= s.start && e.end >= s.start {
          var n := ChunkLength(e.end, addressEnd, s.start);
          var off := TranslateOffset(fileOffset, e, s.start);
          ReadLoopReads(m, count, fileOffset, addressEnd, rawFile, advance, s, chunks);
          if off + n <= |rawFile| && Sub32(s.remain, n) != 0 {
            var c := Chunk(s.index, s.start, off, s.dest, n);
            var s' := NextState(s, n, advance);
            ReadLoopStatus(m, count, fileOffset, addressEnd, rawFile, advance, s', chunks + [c]);
          }
        } else {
          var s' := SkipState(s);
          assert ReadLoop(m, count, fileOffset, addressEnd, rawFile, advance, s, chunks)
              == ReadLoop(m, count, fileOffset, addressEnd, rawFile, advance, s', chunks);
          ReadLoopStatus(m, count, fileOffset, addressEnd, rawFile, advance, s', chunks);
        }
      }
    }
  }

  /** Before the first read, entries that do not hold the address are passed over. */
  lemma {:induction false} ReadLoopSkips(m: seq<Entry>, count: nat, fileOffset: u64, addressEnd: u64, rawFile: seq<u8>,
                                         advance: bool, s: ReadState, i: nat)
    requires s.index <= i <= count <= |m| && s.span == 0 && s.remain < U32_LIMIT
    requires forall j :: s.index <= j < i ==> !(m[j].base <= s.start <= m[j].end)
    ensures ReadLoop(m, count, fileOffset, addressEnd, rawFile, advance, s, [])
            == ReadLoop(m, count, fileOffset, addressEnd, rawFile, advance, s.(index := i), [])
    decreases i - s.index
  {
    if s.index < i {
      ReadLoopSkips(m, count, fileOffset, addressEnd, rawFile, advance, SkipState(s), i);
    }
  }

  /** A physical address no map entry holds cannot be read: STATUS_UNSUCCESSFUL, and nothing is read. */
  lemma UnmappedAddressFails(m: seq<Entry>, count: nat, fileOffset: u64, rawFile: seq<u8>, pa: u64, length: u32)
    requires count <= |m|
    requires FirstContaining(m[..count], pa).None?
    ensures ReadPlan(m, count, fileOffset, rawFile, pa, length) == (STATUS_UNSUCCESSFUL, [])
  {
    assert forall j :: 0 <= j < count ==> m[..count][j] == m[j];
    ReadLoopSkips(m, count, fileOffset, EndOf(pa, length), rawFile, true, ReadState(0, pa, length, 0, 0), count);
  }

  /**
   * A successful intended read of 1 <= length bytes that does not wrap the
   * address space fills exactly `length` bytes of the buffer, in physical
   * address order, without gaps or overlaps.
   */
  lemma ReadPlanCoversRequest(m: seq<Entry>, count: nat, fileOffset: u64, rawFile: seq<u8>, pa: u64, length: u32)
    requires count <= |m|
    requires 1 <= length && pa + length <= U64_LIMIT
    ensures var r := ReadPlan(m, count, fileOffset, rawFile, pa, length);
            r.0 == STATUS_SUCCESS ==> Consecutive(r.1, pa) && SumCounts(r.1) == length
  {
    ReadLoopCovers(m, count, fileOffset, pa, EndOf(pa, length), rawFile, ReadState(0, pa, length, 0, 0), []);
  }

  lemma {:induction false} ReadLoopCovers(m: seq<Entry>, count: nat, fileOffset: u64, pa: u64, addressEnd: u64,
                                          rawFile: seq<u8>, s: ReadState, chunks: seq<Chunk>)
    requires count <= |m| && s.index <= count
    requires addressEnd as int - pa + 1 < U32_LIMIT
    requires CoveredSoFar(chunks, pa, addressEnd, s)
    ensures var r := ReadLoop(m, count, fileOffset, addressEnd, rawFile, true, s, chunks);
            r.0 == STATUS_SUCCESS ==> Consecutive(r.1, pa) && SumCounts(r.1) == addressEnd - pa + 1
    decreases count - s.index, 2
  {
    if s.index < count {
      var e := m[s.index];
      if !(s.span != 0 && s.remain != 0 && !e.contiguous) {
        if e.base <= s.start && e.end >= s.start {
          ReadLoopCoversRead(m, count, fileOffset, pa, addressEnd, rawFile, s, chunks);
        } else {
          ReadLoopCovers(m, count, fileOffset, pa, addressEnd, rawFile, SkipState(s), chunks);
        }
      }
    }
  }

  /** One turn of the loop over an entry that holds the current address. */
  lemma ReadLoopReads(m: seq<Entry>, count: nat, fileOffset: u64, addressEnd: u64, rawFile: seq<u8>, advance: bool,
                      s: ReadState, chunks: seq<Chunk>)
    requires count <= |m| && s.index < count && s.remain < U32_LIMIT
    requires !(s.span != 0 && s.remain != 0 && !m[s.index].contiguous)
    requires m[s.index].base <= s.start <= m[s.index].end
    ensures var e := m[s.index];
            var n := ChunkLength(e.end, addressEnd, s.start);
            var off := TranslateOffset(fileOffset, e, s.start);
            var c := Chunk(s.index, s.start, off, s.dest, n);
            ReadLoop(m, count, fileOffset, addressEnd, rawFile, advance, s, chunks)
              == if off + n > |rawFile| then (STATUS_UNSUCCESSFUL, chunks)
                 else if Sub32(s.remain, n) != 0
                 then ReadLoop(m, count, fileOffset, addressEnd, rawFile, advance,
                               NextState(s, n, advance),
                               chunks + [c])
                 else (STATUS_SUCCESS, chunks + [c])
  {
  }

  /** One turn of the loop over an entry that does not hold the current address. */
  lemma ReadLoopPasses(m: seq<Entry>, count: nat, fileOffset: u64, addressEnd: u64, rawFile: seq<u8>, advance: bool,
                       s: ReadState, chunks: seq<Chunk>)
    requires count <= |m| && s.index < count && s.remain < U32_LIMIT
    requires !(s.span != 0 && s.remain != 0 && !m[s.index].contiguous)
    requires !(m[s.index].base <= s.start <= m[s.index].end)
    ensures ReadLoop(m, count, fileOffset, addressEnd, rawFile, advance, s, chunks)
            == ReadLoop(m, count, fileOffset, addressEnd, rawFile, advance, SkipState(s), chunks)
  {
  }

  /** The case of ReadLoopCovers where the current entry holds the current address. */
  lemma {:induction false} ReadLoopCoversRead(m: seq<Entry>, count: nat, fileOffset: u64, pa: u64, addressEnd: u64,
                                              rawFile: seq<u8>, s: ReadState, chunks: seq<Chunk>)
    requires count <= |m| && s.index < count
    requires addressEnd as int - pa + 1 < U32_LIMIT
    requires CoveredSoFar(chunks, pa, addressEnd, s)
    requires !(s.span != 0 && s.remain != 0 && !m[s.index].contiguous)
    requires m[s.index].base <= s.start <= m[s.index].end
    ensures var r := ReadLoop(m, count, fileOffset, addressEnd, rawFile, true, s, chunks);
            r.0 == STATUS_SUCCESS ==> Consecutive(r.1, pa) && SumCounts(r.1) == addressEnd - pa + 1
    decreases count - s.index, 1
  {
    var e := m[s.index];
    var n := ChunkLength(e.end, addressEnd, s.start);
    var off := TranslateOffset(fileOffset, e, s.start);
    ReadLoopReads(m, count, fileOffset, addressEnd, rawFile, true, s, chunks);
    if off + n <= |rawFile| {
      ReadLoopCoversChunk(m, count, fileOffset, pa, addressEnd, rawFile, s, chunks, n, off);
    }
  }

  /** The rest of the loop after the chunk of ReadLoopCoversRead has been read. */
  lemma {:induction false} ReadLoopCoversChunk(m: seq<Entry>, count: nat, fileOffset: u64, pa: u64, addressEnd: u64,
                                               rawFile: seq<u8>, s: ReadState, chunks: seq<Chunk>, n: u32, off: u64)
    requires count <= |m| && s.index < count
    requires addressEnd as int - pa + 1 < U32_LIMIT
    requires CoveredSoFar(chunks, pa, addressEnd, s)
    requires m[s.index].base <= s.start <= m[s.index].end
    requires n == ChunkLength(m[s.index].end, addressEnd, s.start)
    ensures var c := Chunk(s.index, s.start, off, s.dest, n);
            var r := if Sub32(s.remain, n) != 0
                     then ReadLoop(m, count, fileOffset, addressEnd, rawFile, true,
                                   NextState(s, n, true),
                                   chunks + [c])
                     else (STATUS_SUCCESS, chunks + [c]);
            r.0 == STATUS_SUCCESS ==> Consecutive(r.1, pa) && SumCounts(r.1) == addressEnd - pa + 1
    decreases count - s.index, 0
  {
    var c := Chunk(s.index, s.start, off, s.dest, n);
    CoverNext(chunks, pa, addressEnd, s, m[s.index].end, off);
    if Sub32(s.remain, n) != 0 {
      ReadLoopCovers(m, count, fileOffset, pa, addressEnd, rawFile, NextState(s, n, true), chunks + [c]);
    }
  }

  /** CoverStep, stated for the loop's own next state. */
  lemma CoverNext(chunks: seq<Chunk>, pa: u64, addressEnd: u64, s: ReadState, sectionEnd: u64, off: u64)
    requires addressEnd as int - pa + 1 < U32_LIMIT
    requires CoveredSoFar(chunks, pa, addressEnd, s) && s.start <= sectionEnd
    ensures var n := ChunkLength(sectionEnd, addressEnd, s.start);
            var c := Chunk(s.index, s.start, off, s.dest, n);
            n <= s.remain
            && (Sub32(s.remain, n) != 0 ==> CoveredSoFar(chunks + [c], pa, addressEnd, NextState(s, n, true)))
            && (Sub32(s.remain, n) == 0 ==> Consecutive(chunks + [c], pa) && SumCounts(chunks + [c]) == addressEnd - pa + 1)
  {
    var n := ChunkLength(sectionEnd, addressEnd, s.start);
    CoverStep(chunks, pa, addressEnd, s, sectionEnd, s.index + 1, off, Add32(s.span, 1));
    assert Sub32(s.remain, n) == s.remain - n;
    assert NextState(s, n, true) == ReadState(s.index + 1, Add64(s.start, n), s.remain - n, Add32(s.span, 1), s.dest + n);
  }

  /** Every read lands at index 0 of the buffer. */
  predicate AllAtStart(chunks: seq<Chunk>)
  {
    forall k :: 0 <= k < |chunks| ==> chunks[k].dest == 0
  }

  /** As written, no read moves the destination: all of them land at index 0 of the buffer. */
  lemma {:induction false} AsWrittenDestStaysZero(m: seq<Entry>, count: nat, fileOffset: u64, addressEnd: u64,
                                                  rawFile: seq<u8>, s: ReadState, chunks: seq<Chunk>)
    requires count <= |m| && s.index <= count && s.remain < U32_LIMIT && s.dest == 0
    requires AllAtStart(chunks)
    ensures AllAtStart(ReadLoop(m, count, fileOffset, addressEnd, rawFile, false, s, chunks).1)
    decreases count - s.index
  {
    if s.index < count {
      var e := m[s.index];
      if !(s.span != 0 && s.remain != 0 && !e.contiguous) {
        if e.base <= s.start && e.end >= s.start {
          var n := ChunkLength(e.end, addressEnd, s.start);
          var off := TranslateOffset(fileOffset, e, s.start);
          ReadLoopReads(m, count, fileOffset, addressEnd, rawFile, false, s, chunks);
          if off + n <= |rawFile| {
            var c := Chunk(s.index, s.start, off, s.dest, n);
            var t := chunks + [c];
            assert AllAtStart(t) by {
              forall k | 0 <= k < |t| ensures t[k].dest == 0 {
                if k < |chunks| { assert t[k] == chunks[k]; }
              }
            }
            if Sub32(s.remain, n) != 0 {
              var s' := NextState(s, n, false);
              AsWrittenDestStaysZero(m, count, fileOffset, addressEnd, rawFile, s', t);
            }
          }
        } else {
          var s' := SkipState(s);
          assert ReadLoop(m, count, fileOffset, addressEnd, rawFile, false, s, chunks)
              == ReadLoop(m, count, fileOffset, addressEnd, rawFile, false, s', chunks);
          AsWrittenDestStaysZero(m, count, fileOffset, addressEnd, rawFile, s', chunks);
        }
      }
    }
  }

  /**
   * The reader as written: a read that needs two or more sections puts
   * every piece at the start of the buffer, so the pieces are not laid out
   * one after another and the tail of the buffer is never filled.
   */
  lemma AsWrittenSpanningReadOverwrites(m: seq<Entry>, count: nat, fileOffset: u64, rawFile: seq<u8>, pa: u64, length: u32)
    requires count <= |m|
    ensures var r := ReadPlanAsWritten(m, count, fileOffset, rawFile, pa, length);
            AllAtStart(r.1) && (|r.1| >= 2 ==> !Consecutive(r.1, pa))
  {
    var r := ReadPlanAsWritten(m, count, fileOffset, rawFile, pa, length);
    assert r == ReadLoop(m, count, fileOffset, EndOf(pa, length), rawFile, false, ReadState(0, pa, length, 0, 0), []);
    AsWrittenDestStaysZero(m, count, fileOffset, EndOf(pa, length), rawFile, ReadState(0, pa, length, 0, 0), []);
    if |r.1| >= 2 {
      ConsecutiveMovesDest(r.1, pa);
    }
  }

  /** In a consecutive plan of two or more reads, the last one lands after the start of the buffer. */
  lemma ConsecutiveMovesDest(chunks: seq<Chunk>, pa: u64)
    requires |chunks| >= 2
    ensures Consecutive(chunks, pa) ==> 1 <= chunks[|chunks| - 1].dest
  {
    if Consecutive(chunks, pa) {
      var t := chunks[..|chunks| - 1];
      ConsecutiveCountsPositive(t, pa);
      assert chunks[|chunks| - 2] == t[|t| - 1];
    }
  }

  lemma {:induction false} ConsecutiveCountsPositive(chunks: seq<Chunk>, pa: u64)
    requires Consecutive(chunks, pa) && chunks != []
    ensures 1 <= chunks[|chunks| - 1].count
  {
  }

  // ------------------------------------------------------ physical memory runs

  /** PHYSICAL_MEMORY_RUN(32/64): a run of PageCount pages from page BasePage. */
  datatype MemoryRun = MemoryRun(basePage: u64, pageCount: u64)

  /**
   * PHYSICAL_MEMORY_DESCRIPTOR(32/64) of the Windows dump header. In the
   * 32-bit header all three counts and every run field are ULONG.
   */
  datatype PhysicalMemoryDescriptor = PhysicalMemoryDescriptor(numberOfRuns: u32, numberOfPages: u64, runs: seq<MemoryRun>)

  /** The fields fit the 32-bit header's ULONGs. */
  predicate Run32(r: MemoryRun)
  {
    r.basePage < U32_LIMIT && r.pageCount < U32_LIMIT
  }

  predicate Descriptor32(d: PhysicalMemoryDescriptor)
  {
    d.numberOfPages < U32_LIMIT && forall k :: 0 <= k < |d.runs| ==> Run32(d.runs[k])
  }

  /**
   * First address of a run: BasePage * PAGE_SIZE, a ULONG product in the
   * 32-bit header and a ULONG64 product in the 64-bit one.
   */
  function RunStart(r: MemoryRun, wide: bool): (a: u64)
    requires wide || Run32(r)
    ensures r.basePage * PAGE_SIZE < (if wide then U64_LIMIT else U32_LIMIT) ==> a == r.basePage * PAGE_SIZE
  {
    if wide then Mul64(r.basePage, PAGE_SIZE) else Mul32(r.basePage, PAGE_SIZE)
  }

  /** Byte length of a run, PageCount * PAGE_SIZE, in the same width. */
  function RunLength(r: MemoryRun, wide: bool): (n: u64)
    requires wide || Run32(r)
    ensures r.pageCount * PAGE_SIZE < (if wide then U64_LIMIT else U32_LIMIT) ==> n == r.pageCount * PAGE_SIZE
  {
    if wide then Mul64(r.pageCount, PAGE_SIZE) else Mul32(r.pageCount, PAGE_SIZE)
  }

  /** Last address of a run: start + length - 1 in UINT64. */
  function RunEnd(r: MemoryRun, wide: bool): u64
    requires wide || Run32(r)
  {
    Sub64(Add64(RunStart(r, wide), RunLength(r, wide)), 1)
  }

  /** How the walk over the DDR map judged one run. */
  datatype RunOutcome = RunFits | RunSpansGap | RunStartOutside | RunEndOutside

  /**
   * The inner loop over the DDR map for one run, from entry i with the
   * run's current start, the sections spanned so far and whether the start
   * was found: a spanning run meeting a non-Contiguous entry fails; an
   * entry holding the start either also holds the end or moves the start
   * past its own End.
   */
  function RunCheck(m: seq<Entry>, count: nat, startPD: u64, endPD: u64, i: nat, span: u32, startIn: bool): (r: RunOutcome)
    requires count <= |m| && i <= count
    decreases count - i
  {
    if i == count then (if startIn then RunEndOutside else RunStartOutside)
    else if span > 0 && !m[i].contiguous then RunSpansGap
    else if m[i].base <= startPD <= m[i].end then
      if m[i].base <= endPD <= m[i].end then RunFits
      else RunCheck(m, count, Add64(m[i].end, 1), endPD, i + 1, Add32(span, 1), true)
    else RunCheck(m, count, startPD, endPD, i + 1, span, startIn)
  }

  /** A run the walk accepts. */
  predicate RunAccepted(m: seq<Entry>, count: nat, r: MemoryRun, wide: bool)
    requires count <= |m| && (wide || Run32(r))
  {
    RunCheck(m, count, RunStart(r, wide), RunEnd(r, wide), 0, 0, false) == RunFits
  }

  /** The inner loop: walks the map for one run. */
  method CheckRun(m: seq<Entry>, count: nat, startPD: u64, endPD: u64) returns (r: RunOutcome)
    requires count <= |m|
    ensures r == RunCheck(m, count, startPD, endPD, 0, 0, false)
  {
    var start: u64 := startPD;
    var spanCount: u32 := 0;
    var startInSection := false;
    var indexDDR := 0;
    while indexDDR < count
      invariant indexDDR <= count
      invariant RunCheck(m, count, start, endPD, indexDDR, spanCount, startInSection)
             == RunCheck(m, count, startPD, endPD, 0, 0, false)
    {
      var e := m[indexDDR];
      if spanCount > 0 && !e.contiguous {
        return RunSpansGap;
      }
      if e.base <= start <= e.end {
        startInSection := true;
        if e.base <= endPD <= e.end {
          return RunFits;
        }
        start := Add64(e.end, 1);
        spanCount := Add32(spanCount, 1);
      }
      indexDDR := indexDDR + 1;
    }
    r := if startInSection then RunEndOutside else RunStartOutside;
  }

  /** The outer loop: every one of the first n runs must be accepted; the first that is not stops it. */
  method CheckRuns(m: seq<Entry>, count: nat, runs: seq<MemoryRun>, n: nat, wide: bool) returns (ok: bool)
    requires count <= |m| && n <= |runs|
    requires wide || forall k :: 0 <= k < |runs| ==> Run32(runs[k])
    ensures ok <==> forall k :: 0 <= k < n ==> RunAccepted(m, count, runs[k], wide)
  {
    var indexPD := 0;
    while indexPD < n
      invariant indexPD <= n
      invariant forall k :: 0 <= k < indexPD ==> RunAccepted(m, count, runs[k], wide)
    {
      var run := runs[indexPD];
      var outcome := CheckRun(m, count, RunStart(run, wide), RunEnd(run, wide));
      if outcome != RunFits {
        assert !RunAccepted(m, count, runs[indexPD], wide);
        return false;
      }
      indexPD := indexPD + 1;
    }
    ok := true;
  }

  /** PAGES_TO_BYTES(NumberOfPages) stored in the UINT32 memorySizeFromPD. */
  function MemorySizeFromPD32(d: PhysicalMemoryDescriptor): (r: u32)
    requires Descriptor32(d)
    ensures d.numberOfPages < 0x10_0000 ==> r == d.numberOfPages * PAGE_SIZE
  {
    Trunc32(d.numberOfPages * PAGE_SIZE)
  }

  /**
   * ValidateDDRAgainstPhysicalMemoryBlock of a 32-bit dump header. The size
   * the descriptor claims is stored in the context first; if it exceeds the
   * DDR total the result is BAD_DATA; otherwise every run must be accepted
   * by the walk over the DDRSectionCount map entries, else BAD_DATA.
   */
  method ValidateDDRAgainstPhysicalMemoryBlock(ctx: DmpContext, desc: PhysicalMemoryDescriptor)
    returns (hr: HResult, ctx': DmpContext)
    requires ctx.ddrSectionCount as nat <= |ctx.ddrMemoryMap|
    requires Descriptor32(desc) && desc.numberOfRuns as nat <= |desc.runs|
    ensures ctx' == ctx.(sizeAccordingToMemoryDescriptors := MemorySizeFromPD32(desc))
    ensures hr == FromNt(STATUS_SUCCESS) <==>
              MemorySizeFromPD32(desc) <= ctx.totalDDRSizeInBytes
              && forall k :: 0 <= k < desc.numberOfRuns as nat ==>
                   RunAccepted(ctx.ddrMemoryMap, ctx.ddrSectionCount as nat, desc.runs[k], false)
    ensures hr == FromNt(STATUS_SUCCESS) || hr == FromNt(STATUS_BAD_DATA)
  {
    var memorySizeFromPD := MemorySizeFromPD32(desc);
    ctx' := ctx.(sizeAccordingToMemoryDescriptors := memorySizeFromPD);
    if memorySizeFromPD > ctx.totalDDRSizeInBytes {
      return FromNt(STATUS_BAD_DATA), ctx';
    }
    var ok := CheckRuns(ctx.ddrMemoryMap, ctx.ddrSectionCount as nat, desc.runs, desc.numberOfRuns as nat, false);
    hr := if ok then FromNt(STATUS_SUCCESS) else FromNt(STATUS_BAD_DATA);
  }

  // ------------------------------------------------------ run lemmas

  /** The map entries from i through j are marked Contiguous. */
  predicate ContiguousThrough(m: seq<Entry>, i: nat, j: nat)
    requires j < |m|
  {
    forall t :: i < t <= j ==> m[t].contiguous
  }

  /** The walk after finding the run's start in entry i0: it only accepts an end held by a later entry reached through Contiguous ones. */
  lemma {:induction false} RunCheckFound(m: seq<Entry>, count: nat, startPD: u64, endPD: u64, i: nat, span: u32,
                                         i0: nat)
    requires count <= |m| && i <= count && count < U32_LIMIT
    requires i0 < i && 1 <= span <= i
    requires forall t :: i0 < t < i ==> m[t].contiguous
    requires RunCheck(m, count, startPD, endPD, i, span, true) == RunFits
    ensures exists j :: i <= j < count && m[j].base <= endPD <= m[j].end && ContiguousThrough(m, i0, j)
    decreases count - i
  {
    assert i < count;
    assert m[i].contiguous;
    if m[i].base <= startPD <= m[i].end && m[i].base <= endPD <= m[i].end {
      assert ContiguousThrough(m, i0, i);
    } else if m[i].base <= startPD <= m[i].end {
      RunCheckFound(m, count, Add64(m[i].end, 1), endPD, i + 1, Add32(span, 1), i0);
    } else {
      RunCheckFound(m, count, startPD, endPD, i + 1, span, i0);
    }
  }

  /** The walk before the run's start is found. */
  lemma {:induction false} RunCheckSearching(m: seq<Entry>, count: nat, startPD: u64, endPD: u64, i: nat)
    requires count <= |m| && i <= count && count < U32_LIMIT
    requires RunCheck(m, count, startPD, endPD, i, 0, false) == RunFits
    ensures exists i0, j :: i <= i0 <= j < count && m[i0].base <= startPD <= m[i0].end
                            && m[j].base <= endPD <= m[j].end && ContiguousThrough(m, i0, j)
    decreases count - i
  {
    assert i < count;
    if m[i].base <= startPD <= m[i].end {
      if m[i].base <= endPD <= m[i].end {
        assert ContiguousThrough(m, i, i);
      } else {
        RunCheckFound(m, count, Add64(m[i].end, 1), endPD, i + 1, 1, i);
      }
    } else {
      RunCheckSearching(m, count, startPD, endPD, i + 1);
    }
  }

  /**
   * An accepted run starts in some DDR map entry and ends in the same or a
   * later one, and every entry after the first up to the last is marked
   * Contiguous.
   */
  lemma AcceptedRunIsMapped(m: seq<Entry>, count: nat, r: MemoryRun, wide: bool)
    requires count <= |m| && count < U32_LIMIT && (wide || Run32(r))
    requires RunAccepted(m, count, r, wide)
    ensures exists i0, j :: 0 <= i0 <= j < count && m[i0].base <= RunStart(r, wide) <= m[i0].end
                            && m[j].base <= RunEnd(r, wide) <= m[j].end && ContiguousThrough(m, i0, j)
  {
    RunCheckSearching(m, count, RunStart(r, wide), RunEnd(r, wide), 0);
  }

  /** The walk passes over entries that do not hold the start. */
  lemma {:induction false} RunCheckSkips(m: seq<Entry>, count: nat, startPD: u64, endPD: u64, i: nat, k: nat)
    requires i <= k <= count <= |m|
    requires forall j :: i <= j < k ==> !(m[j].base <= startPD <= m[j].end)
    ensures RunCheck(m, count, startPD, endPD, i, 0, false) == RunCheck(m, count, startPD, endPD, k, 0, false)
    decreases k - i
  {
    if i < k {
      RunCheckSkips(m, count, startPD, endPD, i + 1, k);
    }
  }

  /**
   * A run whose start lies in no DDR map entry is rejected; a run lying in
   * the first entry that holds its start is accepted.
   */
  lemma RunCheckBySingleSection(m: seq<Entry>, count: nat, startPD: u64, endPD: u64)
    requires count <= |m|
    ensures FirstContaining(m[..count], startPD).None? ==>
              RunCheck(m, count, startPD, endPD, 0, 0, false) == RunStartOutside
    ensures var f := FirstContaining(m[..count], startPD);
            f.Some? && m[f.value].base <= endPD <= m[f.value].end ==>
              RunCheck(m, count, startPD, endPD, 0, 0, false) == RunFits
  {
    var f := FirstContaining(m[..count], startPD);
    assert forall j :: 0 <= j < count ==> m[..count][j] == m[j];
    match f {
      case None => RunCheckSkips(m, count, startPD, endPD, 0, count);
      case Some(i) => RunCheckSkips(m, count, startPD, endPD, 0, i);
    }
  }

  // ------------------------------------------------------ writing by physical address

  /**
   * The search of WriteToDumpByPhysicalAddress from run k with the lengths
   * of the runs before k summed into `offset`: the index of the first run
   * whose [start, end] holds [startPA, endPA], in LONGLONG comparisons, and
   * the offset accumulated up to it.
   */
  function FindRun(runs: seq<MemoryRun>, n: nat, wide: bool, startPA: u64, endPA: u64, k: nat, offset: u64)
    : (r: Option<(nat, u64)>)
    requires n <= |runs| && k <= n
    requires wide || forall t :: 0 <= t < |runs| ==> Run32(runs[t])
    ensures r.Some? ==> k <= r.value.0 < n && HoldsRange(runs[r.value.0], wide, startPA, endPA)
                        && r.value.1 == Add64(offset, LengthBefore(runs, wide, k, r.value.0))
    ensures r.Some? ==> forall t :: k <= t < r.value.0 ==> !HoldsRange(runs[t], wide, startPA, endPA)
    ensures r.None? ==> forall t :: k <= t < n ==> !HoldsRange(runs[t], wide, startPA, endPA)
    decreases n - k
  {
    if k == n then None
    else if HoldsRange(runs[k], wide, startPA, endPA) then Some((k, offset))
    else
      var r := FindRun(runs, n, wide, startPA, endPA, k + 1, Add64(offset, RunLength(runs[k], wide)));
      if r.Some? then
        LengthBeforeStep(runs, wide, k, r.value.0);
        Add64Assoc(offset, RunLength(runs[k], wide), LengthBefore(runs, wide, k + 1, r.value.0));
        r
      else r
  }

  /** The run holds [startPA, endPA]: startPA >= startPD and endPD >= endPA as signed 64-bit values. */
  predicate HoldsRange(r: MemoryRun, wide: bool, startPA: u64, endPA: u64)
    requires wide || Run32(r)
  {
    ToSigned64(startPA) >= ToSigned64(RunStart(r, wide)) && ToSigned64(RunEnd(r, wide)) >= ToSigned64(endPA)
  }

  /** Sum of the lengths of runs [k, j), modulo 2^64. */
  function LengthBefore(runs: seq<MemoryRun>, wide: bool, k: nat, j: nat): u64
    requires k <= j <= |runs|
    requires wide || forall t :: 0 <= t < |runs| ==> Run32(runs[t])
    decreases j - k
  {
    if k == j then 0 else Add64(RunLength(runs[k], wide), LengthBefore(runs, wide, k + 1, j))
  }

  lemma LengthBeforeStep(runs: seq<MemoryRun>, wide: bool, k: nat, j: nat)
    requires k < j <= |runs|
    requires wide || forall t :: 0 <= t < |runs| ==> Run32(runs[t])
    ensures LengthBefore(runs, wide, k, j) == Add64(RunLength(runs[k], wide), LengthBefore(runs, wide, k + 1, j))
  {
  }

  /** Where the write goes: (startPA - startPD) + offset + DDRFileOffset, in 64-bit arithmetic. */
  function IoOffset(startPA: u64, r: MemoryRun, wide: bool, offset: u64, ddrFileOffset: u64): u64
    requires wide || Run32(r)
  {
    Add64(Add64(Sub64(startPA, RunStart(r, wide)), offset), ddrFileOffset)
  }

  /**
   * WriteToDumpByPhysicalAddress. The runs come from the 64-bit or the
   * 32-bit header as Is64Bit says. The first run holding [PA, PA + Size - 1]
   * gives the file offset, and the write is issued there with the outcome
   * `writeStatus`; no such run gives STATUS_INVALID_PARAMETER and no write.
   * `writtenAt` is the offset of the write issued, if any.
   */
  method WriteToDumpByPhysicalAddress(ctx: DmpContext, desc: PhysicalMemoryDescriptor, physicalAddress: u64, size: u32,
                                      writeStatus: NtStatus) returns (status: NtStatus, writtenAt: Option<u64>)
    requires desc.numberOfRuns as nat <= |desc.runs|
    requires ctx.is64Bit || Descriptor32(desc)
    ensures var endPA := Sub64(Add64(physicalAddress, size), 1);
            var found := FindRun(desc.runs, desc.numberOfRuns as nat, ctx.is64Bit, physicalAddress, endPA, 0, 0);
            match found
            case None => status == STATUS_INVALID_PARAMETER && writtenAt.None?
            case Some((k, offset)) =>
              writtenAt == Some(IoOffset(physicalAddress, desc.runs[k], ctx.is64Bit, offset, ctx.ddrFileOffset))
              && status == (if NtSuccess(writeStatus) then STATUS_SUCCESS else writeStatus)
  {
    var wide := ctx.is64Bit;
    var startPA := physicalAddress;
    var endPA := Sub64(Add64(startPA, size), 1);
    var offset: u64 := 0;
    var indexPD := 0;
    var n := desc.numberOfRuns as nat;
    while indexPD < n
      invariant indexPD <= n
      invariant FindRun(desc.runs, n, wide, startPA, endPA, indexPD, offset)
             == FindRun(desc.runs, n, wide, startPA, endPA, 0, 0)
    {
      var run := desc.runs[indexPD];
      if ToSigned64(startPA) >= ToSigned64(RunStart(run, wide)) && ToSigned64(RunEnd(run, wide)) >= ToSigned64(endPA) {
        var ioOffset := IoOffset(startPA, run, wide, offset, ctx.ddrFileOffset);
        writtenAt := Some(ioOffset);
        status := if NtSuccess(writeStatus) then STATUS_SUCCESS else writeStatus;
        return;
      }
      offset := Add64(offset, RunLength(run, wide));
      indexPD := indexPD + 1;
    }
    return STATUS_INVALID_PARAMETER, None;
  }

  /** Sum of the lengths of runs [k, j) as plain integers. */
  function PlainLengthBefore(runs: seq<MemoryRun>, wide: bool, k: nat, j: nat): nat
    requires k <= j <= |runs|
    requires wide || forall t :: 0 <= t < |runs| ==> Run32(runs[t])
    decreases j - k
  {
    if k == j then 0 else RunLength(runs[k], wide) + PlainLengthBefore(runs, wide, k + 1, j)
  }

  lemma {:induction false} LengthBeforeIsPlain(runs: seq<MemoryRun>, wide: bool, k: nat, j: nat)
    requires k <= j <= |runs|
    requires wide || forall t :: 0 <= t < |runs| ==> Run32(runs[t])
    requires PlainLengthBefore(runs, wide, k, j) < U64_LIMIT
    ensures LengthBefore(runs, wide, k, j) == PlainLengthBefore(runs, wide, k, j)
    decreases j - k
  {
    if k < j {
      LengthBeforeIsPlain(runs, wide, k + 1, j);
    }
  }

  /**
   * When nothing wraps, the write offset is the address's distance into
   * its run plus the lengths of all runs before it plus DDRFileOffset: the
   * dump lays out the runs' pages one after another from DDRFileOffset, and
   * the whole range lies inside the run.
   */
  lemma WriteOffsetIsRunLayout(runs: seq<MemoryRun>, n: nat, wide: bool, startPA: u64, size: u32, ddrFileOffset: u64)
    requires n <= |runs|
    requires wide || forall t :: 0 <= t < |runs| ==> Run32(runs[t])
    requires 1 <= size && startPA + size <= 0x8000_0000_0000_0000
    requires forall t :: 0 <= t < n ==> RunStart(runs[t], wide) + RunLength(runs[t], wide) <= 0x8000_0000_0000_0000
                                        && 1 <= RunLength(runs[t], wide)
    requires PlainLengthBefore(runs, wide, 0, n) + ddrFileOffset < 0x8000_0000_0000_0000
    ensures var endPA := Sub64(Add64(startPA, size), 1);
            var found := FindRun(runs, n, wide, startPA, endPA, 0, 0);
            found.Some? ==>
              var k := found.value.0;
              RunStart(runs[k], wide) <= startPA && startPA + size <= RunStart(runs[k], wide) + RunLength(runs[k], wide)
              && IoOffset(startPA, runs[k], wide, found.value.1, ddrFileOffset)
                 == startPA - RunStart(runs[k], wide) + PlainLengthBefore(runs, wide, 0, k) + ddrFileOffset
  {
    var endPA := Sub64(Add64(startPA, size), 1);
    var found := FindRun(runs, n, wide, startPA, endPA, 0, 0);
    if found.Some? {
      var k := found.value.0;
      var start, len := RunStart(runs[k], wide), RunLength(runs[k], wide);
      PlainLengthPrefix(runs, wide, k, n);
      LengthBeforeIsPlain(runs, wide, 0, k);
      assert found.value.1 == PlainLengthBefore(runs, wide, 0, k);
      assert endPA == startPA + size - 1;
      assert RunEnd(runs[k], wide) == start + len - 1;
      assert ToSigned64(startPA) == startPA && ToSigned64(start) == start;
      assert ToSigned64(endPA) == endPA && ToSigned64(start + len - 1) == start + len - 1;
      assert Sub64(startPA, start) == startPA - start;
    }
  }

  lemma {:induction false} PlainLengthPrefix(runs: seq<MemoryRun>, wide: bool, k: nat, n: nat)
    requires k <= n <= |runs|
    requires wide || forall t :: 0 <= t < |runs| ==> Run32(runs[t])
    ensures PlainLengthBefore(runs, wide, 0, k) <= PlainLengthBefore(runs, wide, 0, n)
    decreases n - k
  {
    if k < n {
      PlainLengthPrefix(runs, wide, k + 1, n);
      PlainLengthSnoc(runs, wide, 0, k);
    }
  }

  lemma {:induction false} PlainLengthSnoc(runs: seq<MemoryRun>, wide: bool, i: nat, k: nat)
    requires i <= k < |runs|
    requires wide || forall t :: 0 <= t < |runs| ==> Run32(runs[t])
    ensures PlainLengthBefore(runs, wide, i, k + 1) == PlainLengthBefore(runs, wide, i, k) + RunLength(runs[k], wide)
    decreases k - i
  {
    if i < k {
      PlainLengthSnoc(runs, wide, i + 1, k);
    }
  }
}
