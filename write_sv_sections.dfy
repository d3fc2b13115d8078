// raw2dump's secondary dump data (raw2dump/src/WriteSVSections.cpp): the
// tagged blobs appended to the Windows dump. Each blob is a DUMP_BLOB_HEADER
// followed by its data: the raw dump table, AP_REG, every SV specific
// section and the non-OS DDR ranges of the complete memory map.
//
// The dump file and the raw dump are modelled by the I/O they see: a
// DumpFile object records, in order, every read from the raw dump and every
// write to the dump that succeeded. A write succeeds when it ends within the
// dump's capacity; a read of the raw dump (rawdump.bin, a plain file)
// succeeds when it asks for at least one byte that the file holds.
module WriteSvSections {
  import opened Machine
  import opened Status
  import opened RawDumpDefs
  import opened DdrMemoryMap
  import opened Raw2DumpUtil
  import opened SvPlan
  import opened SvGuidTable
  import opened SvSectionsPlan

  // ------------------------------------------------------------ the files

  class DumpFile {
    /** The reads of the raw dump and the writes to the dump that succeeded, in order. */
    var log: seq<Event>
    const capacity: nat
    const rawSize: u64

    constructor (capacity: nat, rawSize: u64)
      ensures this.capacity == capacity && this.rawSize == rawSize && log == []
    {
      this.capacity := capacity;
      this.rawSize := rawSize;
      log := [];
    }

    /**
     * WriteFileAtOffset: NtWriteFile of `size` bytes at the offset; on
     * success BytesWritten is the size and the offset moves on by it, on
     * failure the offset stays.
     */
    method WriteFileAtOffset(size: u32, offset: nat, p: Payload) returns (status: NtStatus, offset': nat, bytesWritten: u32)
      modifies this
      ensures var e := Write(offset, size, p);
              && log == old(log) + Done([e], capacity, rawSize)
              && (NtSuccess(status) <==> Done([e], capacity, rawSize) == [e])
              && (NtSuccess(status) <==> Fits(e, capacity, rawSize))
              && (NtSuccess(status) ==> offset' == offset + size && bytesWritten == size)
              && (!NtSuccess(status) ==> offset' == offset)
    {
      DoneSingle(Write(offset, size, p), capacity, rawSize);
      if offset + size <= capacity {
        log := log + [Write(offset, size, p)];
        return STATUS_SUCCESS, offset + size, size;
      }
      return STATUS_DISK_FULL, offset, 0;
    }

    /**
     * WriteBlobHeader: a DUMP_BLOB_HEADER with HeaderSize its own size, the
     * tag, DataSize the UINT64 blob size cast to ULONG and no padding.
     */
    method WriteBlobHeader(guid: Guid, dumpBlobSize: u64, offset: nat) returns (status: NtStatus, offset': nat)
      modifies this
      ensures var e := BlobEvent(offset, guid, dumpBlobSize);
              && log == old(log) + Done([e], capacity, rawSize)
              && (NtSuccess(status) <==> Done([e], capacity, rawSize) == [e])
              && (NtSuccess(status) <==> Fits(e, capacity, rawSize))
              && (NtSuccess(status) ==> offset' == offset + DUMP_BLOB_HEADER_SIZE)
              && (!NtSuccess(status) ==> offset' == offset)
    {
      var header := BlobHeader(DUMP_BLOB_HEADER_SIZE, guid, Trunc32(dumpBlobSize), 0, 0);
      var bytesWritten;
      status, offset', bytesWritten := WriteFileAtOffset(DUMP_BLOB_HEADER_SIZE, offset, Blob(header));
    }

    /** WpDmppMemWriteDumpBlobFileHeader: the DUMP_BLOB_FILE_HEADER, build 1205. */
    method WriteDumpBlobFileHeader(offset: nat) returns (status: NtStatus, offset': nat)
      modifies this
      ensures var e := FileHeaderEvent(offset);
              && log == old(log) + Done([e], capacity, rawSize)
              && (NtSuccess(status) <==> Done([e], capacity, rawSize) == [e])
              && (NtSuccess(status) <==> Fits(e, capacity, rawSize))
              && (NtSuccess(status) ==> offset' == offset + DUMP_BLOB_FILE_HEADER_SIZE)
              && (!NtSuccess(status) ==> offset' == offset)
    {
      var bytesWritten;
      status, offset', bytesWritten :=
        WriteFileAtOffset(DUMP_BLOB_FILE_HEADER_SIZE, offset, BlobFile(BlobFileHeader(DUMP_BLOB_FILE_HEADER_SIZE, BLOB_BUILD_NUMBER)));
    }

    /**
     * WpDmppReadFromRawDump, corrected: it fails unless all the bytes asked
     * for are read (a read of zero bytes is refused by DEVICE_IO::Read).
     */
    method ReadFromRawDump(offset: u64, bytesToRead: u32) returns (status: NtStatus)
      modifies this
      ensures var e := Read(offset, bytesToRead);
              && log == old(log) + Done([e], capacity, rawSize)
              && (NtSuccess(status) <==> Done([e], capacity, rawSize) == [e])
              && (NtSuccess(status) <==> Fits(e, capacity, rawSize))
    {
      DoneSingle(Read(offset, bytesToRead), capacity, rawSize);
      var (readStatus, bytesProcessed) := ReadAsWritten(rawSize, offset, bytesToRead);
      if !NtSuccess(readStatus) {
        return readStatus;
      }
      if bytesProcessed != bytesToRead as nat {
        return STATUS_UNSUCCESSFUL;
      }
      log := log + [Read(offset, bytesToRead)];
      status := STATUS_SUCCESS;
    }

    /** One iteration of the copy loop: read a chunk of the raw dump into the buffer, then write it out. */
    method CopyChunk(rawOffset: u64, dumpOffset: nat, chunk: u32)
      returns (status: NtStatus, rawOffset': u64, dumpOffset': nat, bytesWritten: u32)
      modifies this
      ensures var pair := ChunkPair(rawOffset, dumpOffset, chunk);
              && log == old(log) + Done(pair, capacity, rawSize)
              && (NtSuccess(status) <==> Done(pair, capacity, rawSize) == pair)
              && (NtSuccess(status) ==> rawOffset' == Add64(rawOffset, chunk) && dumpOffset' == dumpOffset + chunk && bytesWritten == chunk)
    {
      ghost var r := Read(rawOffset, chunk);
      ghost var w := Write(dumpOffset, chunk, RawRange(rawOffset, chunk));
      ghost var l0 := log;
      status := ReadFromRawDump(rawOffset, chunk);
      ghost var l1 := log;
      var ok1 := NtSuccess(status);
      rawOffset', dumpOffset', bytesWritten := rawOffset, dumpOffset, 0;
      if ok1 {
        rawOffset' := Add64(rawOffset, chunk);
        status, dumpOffset', bytesWritten := WriteFileAtOffset(chunk, dumpOffset, RawRange(rawOffset, chunk));
      }
      RunThen(ChunkPair(rawOffset, dumpOffset, chunk), [r], [w], l0, l1, log, capacity, rawSize, ok1);
    }

    /**
     * WpDmppCopyDDRFromRawDumpToDumpFileByOffset: BytesToCopy bytes from the
     * raw dump offset to the dump offset, through the IO_BUFFER_SIZE buffer,
     * one read and one write per iteration. BytesCopied is what the
     * completed iterations wrote.
     */
    method CopyDdrFromRawDumpToDumpFileByOffset(rawDumpOffset: u64, dumpFileOffset: nat, bytesToCopy: u32)
      returns (status: NtStatus, bytesCopied: u32)
      modifies this
      ensures var plan := CopyPlan(rawDumpOffset, dumpFileOffset, bytesToCopy);
              && log == old(log) + Done(plan, capacity, rawSize)
              && (NtSuccess(status) <==> Done(plan, capacity, rawSize) == plan)
              && bytesCopied <= bytesToCopy
              && (NtSuccess(status) ==> bytesCopied == bytesToCopy)
    {
      ghost var plan := CopyPlan(rawDumpOffset, dumpFileOffset, bytesToCopy);
      var iterationsRequired := bytesToCopy as nat / IO_BUFFER_SIZE;
      if bytesToCopy as nat % IO_BUFFER_SIZE != 0 {
        iterationsRequired := iterationsRequired + 1;
      }
      var bytesRemain: u32 := bytesToCopy;
      var rawOffset := rawDumpOffset;
      var dumpOffset: nat := dumpFileOffset;
      var totalBytesCopied: u32 := 0;
      status := STATUS_SUCCESS;
      ghost var done: seq<Event> := [];
      var iteration := 0;
      while iteration < iterationsRequired
        invariant iteration + Iterations(bytesRemain as nat) == iterationsRequired
        invariant totalBytesCopied as nat + bytesRemain as nat == bytesToCopy as nat
        invariant plan == done + CopyPlan(rawOffset, dumpOffset, bytesRemain as nat)
        invariant log == old(log) + done && Done(done, capacity, rawSize) == done
        invariant NtSuccess(status)
      {
        IterationsStep(bytesRemain as nat);
        var chunk: u32 := if bytesRemain as nat < IO_BUFFER_SIZE then bytesRemain else IO_BUFFER_SIZE as u32;
        ghost var nextRaw, nextDump, nextRemain := Add64(rawOffset, chunk), dumpOffset + chunk, bytesRemain as nat - chunk as nat;
        ghost var pair := ChunkPair(rawOffset, dumpOffset, chunk);
        ghost var tail := CopyPlan(nextRaw, nextDump, nextRemain);
        CopyPlanStep(rawOffset, dumpOffset, bytesRemain as nat, chunk as nat);
        assert Iterations(nextRemain) + 1 == Iterations(bytesRemain as nat);
        var bytesWritten;
        status, rawOffset, dumpOffset, bytesWritten := CopyChunk(rawOffset, dumpOffset, chunk);
        if !NtSuccess(status) {
          StepFail(plan, done, pair, tail, capacity, rawSize);
          Assoc(old(log), done, Done(pair, capacity, rawSize));
          return status, totalBytesCopied;
        }
        // The partial-write test cannot fire: a successful write reports BytesWritten = Size.
        StepPass(plan, done, pair, tail, capacity, rawSize);
        Assoc(old(log), done, pair);
        done := done + pair;
        bytesRemain := bytesRemain - bytesWritten;
        totalBytesCopied := totalBytesCopied + bytesWritten;
        iteration := iteration + 1;
        assert rawOffset == nextRaw && dumpOffset == nextDump && bytesRemain as nat == nextRemain;
      }
      // bytesRemain is 0 here, so the sanity test after the loop cannot fire either.
      IterationsStep(bytesRemain as nat);
      assert plan == done + [] == done;
      bytesCopied := totalBytesCopied;
    }

    /** The start of WpDmppWriteNonOSDDR: the memory map in its blob, then the NON_OS_DDR blob header. */
    method WriteMapBlobs(completeMemoryMap: seq<Entry>, count: u32, totalNonOS: u64, offset: nat)
      returns (status: NtStatus, offset': nat)
      requires count as nat <= |completeMemoryMap|
      modifies this
      ensures var head := MapBlobs(completeMemoryMap, count, totalNonOS, offset);
              && log == old(log) + Done(head, capacity, rawSize)
              && (NtSuccess(status) <==> Done(head, capacity, rawSize) == head)
              && (NtSuccess(status) ==> offset' == offset + 2 * DUMP_BLOB_HEADER_SIZE + MapBytes(count))
    {
      var bytesToWrite := MapBytes(count);
      ghost var e1 := BlobEvent(offset, MEMORY_MAP_GUID, bytesToWrite);
      ghost var e2 := Write(offset + DUMP_BLOB_HEADER_SIZE, bytesToWrite, MemoryMap(completeMemoryMap[..count]));
      ghost var e3 := BlobEvent(offset + DUMP_BLOB_HEADER_SIZE + bytesToWrite, NON_OS_DDR_GUID, totalNonOS);
      ghost var l0 := log;
      status, offset' := WriteBlobHeader(MEMORY_MAP_GUID, bytesToWrite, offset);
      ghost var l1 := log;
      var ok1 := NtSuccess(status);
      if ok1 {
        var bytesWritten;
        status, offset', bytesWritten := WriteFileAtOffset(bytesToWrite, offset', MemoryMap(completeMemoryMap[..count]));
        ghost var l2 := log;
        var ok2 := NtSuccess(status);
        // The partial-write test cannot fire: a successful write reports BytesWritten = Size.
        if ok2 {
          status, offset' := WriteBlobHeader(NON_OS_DDR_GUID, totalNonOS, offset');
        }
        RunThen([e2] + [e3], [e2], [e3], l1, l2, log, capacity, rawSize, ok2);
      }
      RunThen(MapBlobs(completeMemoryMap, count, totalNonOS, offset), [e1], [e2] + [e3], l0, l1, log, capacity, rawSize, ok1);
    }

    /** One iteration of WpDmppWriteNonOSDDR's loop: a MEMORY_NONOS entry is copied, any other skipped. */
    method CopyNonOsEntry(entry: Entry, offset: nat) returns (status: NtStatus, offset': nat)
      modifies this
      ensures var step := EntryCopy(entry, offset);
              && log == old(log) + Done(step, capacity, rawSize)
              && (NtSuccess(status) <==> Done(step, capacity, rawSize) == step)
              && (NtSuccess(status) ==> offset' == offset + NonOsPart(entry))
    {
      if entry.memType == MEMORY_NONOS {
        var bytesCopied;
        status, bytesCopied := CopyDdrFromRawDumpToDumpFileByOffset(entry.offset, offset, Trunc32(entry.size));
        offset' := offset + bytesCopied;
      } else {
        assert log == old(log) + [];
        status, offset' := STATUS_SUCCESS, offset;
      }
    }

    /** WpDmppWriteNonOSDDR's loop: a copy of every MEMORY_NONOS entry of the map, each where the one before it ended. */
    method WriteNonOsCopies(completeMemoryMap: seq<Entry>, count: u32, offset: nat) returns (status: NtStatus, offset': nat)
      requires count as nat <= |completeMemoryMap|
      modifies this
      ensures var plan := NonOsCopies(completeMemoryMap[..count], offset);
              && log == old(log) + Done(plan, capacity, rawSize)
              && (NtSuccess(status) <==> Done(plan, capacity, rawSize) == plan)
              && (NtSuccess(status) ==> offset' == offset + NonOsBytes(completeMemoryMap[..count]))
    {
      ghost var m := completeMemoryMap[..count];
      ghost var plan := NonOsCopies(m, offset);
      ghost var finalOffset := offset + NonOsBytes(m);
      ghost var done: seq<Event> := [];
      assert m[0..] == m;
      var cursor: nat := offset;
      status := STATUS_SUCCESS;
      var index: u32 := 0;
      while index < count
        invariant index <= count
        invariant plan == done + NonOsCopies(m[index..], cursor)
        invariant log == old(log) + done && Done(done, capacity, rawSize) == done
        invariant cursor + NonOsBytes(m[index..]) == finalOffset
        invariant NtSuccess(status)
      {
        var entry := completeMemoryMap[index];
        assert entry == m[index];
        ghost var step := EntryCopy(entry, cursor);
        ghost var start := cursor;
        status, cursor := CopyNonOsEntry(entry, cursor);
        if !NtSuccess(status) {
          NonOsCopiesStep(m, index as nat, start, start + NonOsPart(entry), plan, done, capacity, rawSize);
          Assoc(old(log), done, Done(step, capacity, rawSize));
          return status, cursor;
        }
        NonOsCopiesStep(m, index as nat, start, cursor, plan, done, capacity, rawSize);
        Assoc(old(log), done, step);
        done := done + step;
        index := index + 1;
      }
      assert m[count..] == [];
      assert plan == done + [] == done;
      offset' := cursor;
    }

    /**
     * WpDmppWriteNonOSDDR: the complete memory map in its own blob, then the
     * NON_OS_DDR blob and a copy of every MEMORY_NONOS entry of the map.
     */
    method WriteNonOsDdr(completeMemoryMap: seq<Entry>, count: u32, totalNonOS: u64, offset: nat)
      returns (status: NtStatus, offset': nat)
      requires count as nat <= |completeMemoryMap|
      modifies this
      ensures var plan := NonOsPlan(completeMemoryMap, count, totalNonOS, offset);
              && log == old(log) + Done(plan, capacity, rawSize)
              && (NtSuccess(status) <==> Done(plan, capacity, rawSize) == plan)
              && (NtSuccess(status) ==> offset' == offset + NonOsPlanBytes(completeMemoryMap, count))
    {
      ghost var head := MapBlobs(completeMemoryMap, count, totalNonOS, offset);
      ghost var copies := NonOsCopies(completeMemoryMap[..count], offset + 2 * DUMP_BLOB_HEADER_SIZE + MapBytes(count));
      ghost var l0 := log;
      status, offset' := WriteMapBlobs(completeMemoryMap, count, totalNonOS, offset);
      ghost var l1 := log;
      var ok1 := NtSuccess(status);
      if ok1 {
        assert offset' == offset + 2 * DUMP_BLOB_HEADER_SIZE + MapBytes(count);
        status, offset' := WriteNonOsCopies(completeMemoryMap, count, offset');
      }
      RunThen(NonOsPlan(completeMemoryMap, count, totalNonOS, offset), head, copies, l0, l1, log, capacity, rawSize, ok1);
    }

    /**
     * The first part of WriteSVSpecific: the blob file header, then the raw
     * dump table blob holding the RAW_DUMP_HEADER and the section table.
     */
    method WriteRawDumpTable(hdr: RawDumpHeader, table: seq<SectionHeader>, offset: nat)
      returns (status: NtStatus, offset': nat)
      requires hdr.sectionsCount as nat <= |table|
      modifies this
      ensures var plan := TablePlan(hdr, table, offset);
              && log == old(log) + Done(plan, capacity, rawSize)
              && (NtSuccess(status) <==> Done(plan, capacity, rawSize) == plan)
              && (NtSuccess(status) ==> offset' == offset + TableBytes(hdr.sectionsCount))
    {
      var sectionsCount := hdr.sectionsCount;
      ghost var o := offset + DUMP_BLOB_FILE_HEADER_SIZE;
      ghost var f := FileHeaderEvent(offset);
      ghost var b := BlobEvent(o, RAW_DUMP_TABLE_GUID, RAW_DUMP_HEADER_SIZE + TableSize(sectionsCount));
      ghost var w1 := Write(o + DUMP_BLOB_HEADER_SIZE, RAW_DUMP_HEADER_SIZE, RawHeader(hdr));
      ghost var w2 := Write(o + DUMP_BLOB_HEADER_SIZE + RAW_DUMP_HEADER_SIZE, Trunc32(TableSize(sectionsCount)), RawTable(table[..sectionsCount]));
      ghost var l0 := log;
      status, offset' := WriteDumpBlobFileHeader(offset);
      ghost var l1 := log;
      var ok1 := NtSuccess(status);
      if ok1 {
        status, offset' := WriteBlobHeader(RAW_DUMP_TABLE_GUID, RAW_DUMP_HEADER_SIZE + TableSize(sectionsCount), offset');
        ghost var l2 := log;
        var ok2 := NtSuccess(status);
        if ok2 {
          var bytesWritten;
          status, offset', bytesWritten := WriteFileAtOffset(RAW_DUMP_HEADER_SIZE, offset', RawHeader(hdr));
          ghost var l3 := log;
          var ok3 := NtSuccess(status);
          if ok3 {
            status, offset', bytesWritten := WriteFileAtOffset(Trunc32(TableSize(sectionsCount)), offset', RawTable(table[..sectionsCount]));
          }
          RunThen([w1] + [w2], [w1], [w2], l2, l3, log, capacity, rawSize, ok3);
        }
        RunThen([b] + ([w1] + [w2]), [b], [w1] + [w2], l1, l2, log, capacity, rawSize, ok2);
      }
      RunThen(TablePlan(hdr, table, offset), [f], [b] + ([w1] + [w2]), l0, l1, log, capacity, rawSize, ok1);
    }

    /** The AP_REG blob of TotalCpuContextSizeInBytes bytes, written only when the context holds AP_REG. */
    method WriteApReg(apReg: Option<u64>, offset: nat) returns (status: NtStatus, offset': nat)
      modifies this
      ensures var plan := ApRegPlan(apReg, offset);
              && log == old(log) + Done(plan, capacity, rawSize)
              && (NtSuccess(status) <==> Done(plan, capacity, rawSize) == plan)
              && (NtSuccess(status) ==> offset' == offset + ApRegBytes(apReg))
    {
      if apReg.None? {
        assert log == old(log) + [];
        return STATUS_SUCCESS, offset;
      }
      var totalCpuContextSizeInBytes := apReg.value;
      ghost var b := BlobEvent(offset, CPU_CONTEXT_GUID, totalCpuContextSizeInBytes);
      ghost var w := Write(offset + DUMP_BLOB_HEADER_SIZE, Trunc32(totalCpuContextSizeInBytes), ApReg);
      ghost var l0 := log;
      status, offset' := WriteBlobHeader(CPU_CONTEXT_GUID, totalCpuContextSizeInBytes, offset);
      ghost var l1 := log;
      var ok1 := NtSuccess(status);
      if ok1 {
        var bytesWritten;
        status, offset', bytesWritten := WriteFileAtOffset(Trunc32(totalCpuContextSizeInBytes), offset', ApReg);
      }
      RunThen(ApRegPlan(apReg, offset), [b], [w], l0, l1, log, capacity, rawSize, ok1);
    }

    /** The blob of one SV specific section: its header, the 20-byte name, then the bytes read. */
    method WriteSectionBlob(guid: Guid, section: SectionHeader, offset: nat) returns (status: NtStatus, offset': nat)
      modifies this
      ensures var blob := SectionBlob(guid, section, offset);
              && log == old(log) + Done(blob, capacity, rawSize)
              && (NtSuccess(status) <==> Done(blob, capacity, rawSize) == blob)
              && (NtSuccess(status) ==> offset' == offset + DUMP_BLOB_HEADER_SIZE + NAME_LENGTH + Trunc32(section.size))
    {
      var size := Trunc32(section.size);
      var blobSize := Add32(size, NAME_LENGTH);
      ghost var b := BlobEvent(offset, guid, blobSize);
      ghost var w1 := Write(offset + DUMP_BLOB_HEADER_SIZE, NAME_LENGTH, Name(section.name));
      ghost var w2 := Write(offset + DUMP_BLOB_HEADER_SIZE + NAME_LENGTH, size, RawRange(section.offset, size));
      ghost var l0 := log;
      status, offset' := WriteBlobHeader(guid, blobSize, offset);
      ghost var l1 := log;
      var ok1 := NtSuccess(status);
      if ok1 {
        var bytesWritten;
        status, offset', bytesWritten := WriteFileAtOffset(NAME_LENGTH, offset', Name(section.name));
        ghost var l2 := log;
        var ok2 := NtSuccess(status);
        // The partial-write tests cannot fire: a successful write reports BytesWritten = Size.
        if ok2 {
          status, offset', bytesWritten := WriteFileAtOffset(size, offset', RawRange(section.offset, size));
        }
        RunThen([w1] + [w2], [w1], [w2], l1, l2, log, capacity, rawSize, ok2);
      }
      RunThen(SectionBlob(guid, section, offset), [b], [w1] + [w2], l0, l1, log, capacity, rawSize, ok1);
    }

    /**
     * One turn of WriteSVSpecific's section loop: an SV specific section is
     * read through the temporary buffer and written in a blob tagged with
     * the GUID its name selects in the GUIDToName table `guids`; other
     * sections are skipped.
     */
    method WriteSvSection(guids: seq<GuidName>, section: SectionHeader, offset: nat) returns (status: NtStatus, offset': nat)
      requires 0 < |guids|
      modifies this
      ensures var step := SectionEvents(guids, section, offset);
              && log == old(log) + Done(step, capacity, rawSize)
              && (NtSuccess(status) <==> Done(step, capacity, rawSize) == step)
              && (NtSuccess(status) ==> offset' == offset + SectionBytes(section))
    {
      if !IsSvSpecific(section) {
        assert log == old(log) + [];
        return STATUS_SUCCESS, offset;
      }
      var guidToNameIndex := FindGuidIndex(guids, section.name);
      TagOfIndex(guids, section.name, 0);
      assert guids[0..] == guids;
      var guid := guids[guidToNameIndex].guid;
      ghost var r := Read(section.offset, Trunc32(section.size));
      ghost var l0 := log;
      status := ReadFromRawDump(section.offset, Trunc32(section.size));
      ghost var l1 := log;
      var ok1 := NtSuccess(status);
      offset' := offset;
      if ok1 {
        status, offset' := WriteSectionBlob(guid, section, offset);
      }
      RunThen(SectionEvents(guids, section, offset), [r], SectionBlob(guid, section, offset), l0, l1, log, capacity, rawSize, ok1);
    }

    /** WriteSVSpecific's loop over the first SectionsCount entries of the section table. */
    method WriteSvSections(guids: seq<GuidName>, table: seq<SectionHeader>, sectionsCount: u32, offset: nat) returns (status: NtStatus, offset': nat)
      requires 0 < |guids| && sectionsCount as nat <= |table|
      modifies this
      ensures var plan := SvCopies(guids, table[..sectionsCount], offset);
              && log == old(log) + Done(plan, capacity, rawSize)
              && (NtSuccess(status) <==> Done(plan, capacity, rawSize) == plan)
              && (NtSuccess(status) ==> offset' == offset + SvBytes(table[..sectionsCount]))
    {
      ghost var t := table[..sectionsCount];
      ghost var plan := SvCopies(guids, t, offset);
      ghost var finalOffset := offset + SvBytes(t);
      ghost var done: seq<Event> := [];
      assert t[0..] == t;
      var cursor: nat := offset;
      status := STATUS_SUCCESS;
      var sectionIndex: u32 := 0;
      while sectionIndex < sectionsCount
        invariant sectionIndex <= sectionsCount
        invariant plan == done + SvCopies(guids, t[sectionIndex..], cursor)
        invariant log == old(log) + done && Done(done, capacity, rawSize) == done
        invariant cursor + SvBytes(t[sectionIndex..]) == finalOffset
        invariant NtSuccess(status)
      {
        var section := table[sectionIndex];
        assert section == t[sectionIndex];
        ghost var step := SectionEvents(guids, section, cursor);
        ghost var start := cursor;
        status, cursor := WriteSvSection(guids, section, cursor);
        if !NtSuccess(status) {
          SvCopiesStep(guids, t, sectionIndex as nat, start, start + SectionBytes(section), plan, done, capacity, rawSize);
          Assoc(old(log), done, Done(step, capacity, rawSize));
          return status, cursor;
        }
        SvCopiesStep(guids, t, sectionIndex as nat, start, cursor, plan, done, capacity, rawSize);
        Assoc(old(log), done, step);
        done := done + step;
        sectionIndex := sectionIndex + 1;
      }
      assert t[sectionsCount..] == [];
      assert plan == done + [] == done;
      offset' := cursor;
    }

    /**
     * What WriteSVSpecific does after AP_REG: without the temporary buffer
     * it stops with STATUS_NO_MEMORY; with it, it writes the SV specific
     * sections, then the non-OS DDR.
     */
    method WriteAfterApReg(guids: seq<GuidName>, hdr: RawDumpHeader, table: seq<SectionHeader>, gotMemory: bool,
                           completeMemoryMap: seq<Entry>, count: u32, totalNonOS: u64, offset: nat)
      returns (status: NtStatus, offset': nat)
      requires 0 < |guids| && hdr.sectionsCount as nat <= |table| && count as nat <= |completeMemoryMap|
      modifies this
      ensures var plan := AfterApReg(guids, hdr, table, gotMemory, completeMemoryMap, count, totalNonOS, offset);
              && log == old(log) + Done(plan, capacity, rawSize)
              && (NtSuccess(status) <==> gotMemory && Done(plan, capacity, rawSize) == plan)
              && (!gotMemory ==> status == STATUS_NO_MEMORY)
              && (NtSuccess(status) ==> offset' == offset + AfterApRegBytes(hdr, table, gotMemory, completeMemoryMap, count))
    {
      if !gotMemory {
        assert log == old(log) + [];
        return STATUS_NO_MEMORY, offset;
      }
      ghost var n := hdr.sectionsCount;
      ghost var sections := SvCopies(guids, table[..n], offset);
      ghost var nonOs := NonOsPlan(completeMemoryMap, count, totalNonOS, offset + SvBytes(table[..n]));
      assert AfterApReg(guids, hdr, table, gotMemory, completeMemoryMap, count, totalNonOS, offset) == sections + nonOs;
      ghost var l0 := log;
      status, offset' := WriteSvSections(guids, table, hdr.sectionsCount, offset);
      ghost var l1 := log;
      var ok1 := NtSuccess(status);
      if ok1 {
        assert offset' == offset + SvBytes(table[..n]);
        status, offset' := WriteNonOsDdr(completeMemoryMap, count, totalNonOS, offset');
      }
      RunThen(sections + nonOs, sections, nonOs, l0, l1, log, capacity, rawSize, ok1);
    }

    /** What WriteSVSpecific does after the raw dump table: AP_REG, then the rest. */
    method WriteAfterTable(guids: seq<GuidName>, hdr: RawDumpHeader, table: seq<SectionHeader>, apReg: Option<u64>, gotMemory: bool,
                           completeMemoryMap: seq<Entry>, count: u32, totalNonOS: u64, offset: nat)
      returns (status: NtStatus, offset': nat)
      requires 0 < |guids| && hdr.sectionsCount as nat <= |table| && count as nat <= |completeMemoryMap|
      modifies this
      ensures var plan := AfterTable(guids, hdr, table, apReg, gotMemory, completeMemoryMap, count, totalNonOS, offset);
              && log == old(log) + Done(plan, capacity, rawSize)
              && (NtSuccess(status) <==> gotMemory && Done(plan, capacity, rawSize) == plan)
              && (!gotMemory && Done(plan, capacity, rawSize) == plan ==> status == STATUS_NO_MEMORY)
              && (NtSuccess(status) ==> offset' == offset + ApRegBytes(apReg) + AfterApRegBytes(hdr, table, gotMemory, completeMemoryMap, count))
    {
      ghost var a := ApRegPlan(apReg, offset);
      ghost var rest := AfterApReg(guids, hdr, table, gotMemory, completeMemoryMap, count, totalNonOS, offset + ApRegBytes(apReg));
      DoneThen(a, rest, capacity, rawSize);
      var cursor;
      status, cursor := WriteApReg(apReg, offset);
      if !NtSuccess(status) {
        return status, cursor;
      }
      status, offset' := WriteAfterApReg(guids, hdr, table, gotMemory, completeMemoryMap, count, totalNonOS, cursor);
      Assoc(old(log), a, Done(rest, capacity, rawSize));
    }

    /**
     * WriteSVSpecific once SecondaryDataBlobCount is not 0: the blob file
     * header and the raw dump table, then AP_REG and the rest, stopping at
     * the first failure.
     */
    method WriteSecondaryData(guids: seq<GuidName>, hdr: RawDumpHeader, table: seq<SectionHeader>, apReg: Option<u64>,
                              gotMemory: bool, completeMemoryMap: seq<Entry>, count: u32, totalNonOS: u64, offset: nat)
      returns (status: NtStatus, offset': nat)
      requires 0 < |guids| && hdr.sectionsCount as nat <= |table| && count as nat <= |completeMemoryMap|
      modifies this
      ensures var plan := TablePlan(hdr, table, offset)
                + AfterTable(guids, hdr, table, apReg, gotMemory, completeMemoryMap, count, totalNonOS, offset + TableBytes(hdr.sectionsCount));
              && log == old(log) + Done(plan, capacity, rawSize)
              && (NtSuccess(status) <==> gotMemory && Done(plan, capacity, rawSize) == plan)
              && (!gotMemory && Done(plan, capacity, rawSize) == plan ==> status == STATUS_NO_MEMORY)
              && (NtSuccess(status) ==> offset' == offset + SecondaryBytes(hdr, table, apReg, gotMemory, completeMemoryMap, count))
    {
      ghost var a := TablePlan(hdr, table, offset);
      ghost var rest := AfterTable(guids, hdr, table, apReg, gotMemory, completeMemoryMap, count, totalNonOS,
                                   offset + TableBytes(hdr.sectionsCount));
      ghost var plan := a + rest;
      ghost var l0 := log;
      status, offset' := WriteRawDumpTable(hdr, table, offset);
      ghost var l1 := log;
      var ok1 := NtSuccess(status);
      if ok1 {
        assert offset' == offset + TableBytes(hdr.sectionsCount);
        status, offset' := WriteAfterTable(guids, hdr, table, apReg, gotMemory, completeMemoryMap, count, totalNonOS, offset');
      }
      RunThen(plan, a, rest, l0, l1, log, capacity, rawSize, ok1);
    }

    /**
     * WriteSVSpecific: with no secondary data blobs it leaves at once with
     * SecondaryDataOffset 0 and HRESULT_FROM_NT(STATUS_SUCCESS), a success
     * code with the NT facility bit set rather than S_OK. Otherwise SecondaryDataOffset is the dump
     * offset on entry, the secondary data is written from there with the
     * GUIDToName table, and the result is HRESULT_FROM_NT of the status:
     * it succeeds exactly when everything was written.
     */
    method WriteSvSpecific(secondaryDataBlobCount: u32, hdr: RawDumpHeader, table: seq<SectionHeader>, apReg: Option<u64>,
                           gotMemory: bool, completeMemoryMap: seq<Entry>, count: u32, totalNonOS: u64, offset: nat)
      returns (hr: HResult, secondaryDataOffset: nat, offset': nat)
      requires hdr.sectionsCount as nat <= |table| && count as nat <= |completeMemoryMap|
      modifies this
      ensures secondaryDataBlobCount == 0 ==> hr == FromNt(STATUS_SUCCESS) && secondaryDataOffset == 0 && offset' == offset && log == old(log)
      ensures secondaryDataBlobCount != 0 ==>
                var plan := SecondaryPlan(GUID_TO_NAME, hdr, table, apReg, gotMemory, completeMemoryMap, count, totalNonOS, offset);
                && secondaryDataOffset == offset
                && log == old(log) + Done(plan, capacity, rawSize)
                && (Succeeded(hr) <==> gotMemory && Done(plan, capacity, rawSize) == plan)
                && (!gotMemory && Done(plan, capacity, rawSize) == plan ==> hr == FromNt(STATUS_NO_MEMORY))
                && (Succeeded(hr) ==> offset' == offset + SecondaryBytes(hdr, table, apReg, gotMemory, completeMemoryMap, count))
    {
      secondaryDataOffset := 0;
      if secondaryDataBlobCount == 0 {
        return FromNt(STATUS_SUCCESS), secondaryDataOffset, offset;
      }
      secondaryDataOffset := offset;
      var status;
      SecondaryPlanSplit(GUID_TO_NAME, hdr, table, apReg, gotMemory, completeMemoryMap, count, totalNonOS, offset);
      status, offset' := WriteSecondaryData(GUID_TO_NAME, hdr, table, apReg, gotMemory, completeMemoryMap, count, totalNonOS, offset);
      hr := FromNt(status);
    }
  }
}
