# Offline crash dump tooling: a verified model

OCD ("offline crash dump") turns the raw dump a Windows Phone SoC writes on a
crash (a RAW_DUMP_HEADER followed by a table of RAW_DUMP_SECTION_HEADER
entries describing DDR ranges, CPU context and SV specific sections) into a
Windows kernel dump. This project models the parts of its tools that decide
whether a raw dump is well formed and how physical memory is found in it:

- the shared header and section-table validators (`common/lib/Dump_Header.cpp`);
- the OffDmpSvc service library (`OffDmpSvc/lib/buildparams.cpp`): header and
  section table checks, the DDR memory map, the read by physical address and
  the choice of dump location;
- raw2dump (`raw2dump/src/dumputil.cpp`): its own header and table checks, its
  DDR map builder (which marks Contiguous entries), its reader, the check of
  the Windows dump's physical memory runs against the DDR map and the write
  into the dump by physical address, and the best-effort ("fake") dump header
  written when no usable Windows dump header was found;
- raw2dump's secondary data (`raw2dump/src/WriteSVSections.cpp`): the blob
  file header, the raw dump table, AP_REG, each SV specific section tagged by
  the GUID its name selects, the complete memory map and the non-OS DDR
  regions, written one after another into the Windows dump.
- the shared device reader DEVICE_IO (`common/lib/Device_IO.cpp`,
  `common/include/Device_IO.h`): device naming, readiness, the cache over a
  disk partition, positioning, SafeIO's chunked transfer and the three-phase
  block read, as a class `Device` whose fields are the object's and whose
  `disk`, `osPos` and `osError` stand for the opened device or file, its
  file pointer and the thread's last Win32 error.
- the device-specific information record appended to the raw dump
  (`common/lib/Device_Specific.cpp`, `common/include/Device_Specific.h`):
  its byte image in the signed layout and the two unsigned legacy ones, the
  layout detection and the copy by type on reading (through the `Device`
  model), and the stamping on writing. The detection is a heuristic: an
  unsigned naturally aligned record whose Size field is 0x14C is read as a
  packed one (`UnpackedSizeLooksPacked`).
- the CPU register context (`raw2dump/src/apreg.cpp`, `raw2dump/src/apreg64.cpp`,
  `test/offdumptool/exe/apreg64.cpp`): the legacy AP_REG header checks and
  block size, the conversions of a TZBSP secure context and of an SDI ARM or
  ARM64 register dump into the NT context (the CPSR mode selecting the
  banked registers), the AP_REG address kept in the OCIMEM section, and the
  walk of the MSM dump table that collects one SDI dump per CPU into a
  linked list. The walk is a pair of functions (`Walk`, `WalkEntries`) over
  a list value, and the global list a class `CpuContextList` whose methods
  are proved to change it as the walk does. A list of two or more CPUs does
  not end in a node leading to itself: only a lone node does, and the last
  of several keeps the Flink it was allocated with (`FlatTableInOrder`).
- the Qualcomm secondary-data provider of the service (`OffDmpSvc/qcom/qcom32.cpp`,
  class `QCom32`): the copy of the RST_STAT and PMIC_PON sections, selected
  by the GUID their name has in GUIDToName; the AP_REG address and header;
  the IN_MEM_DATA_INFO variable and the in-memory diag buffer; the bug
  check code and parameters the dump is filed under; and the device
  specific info record it fills. Each routine is a method of the class,
  proved to leave the state a function of the old state computes
  (`SvSpecificInfo`, `ApRegLookup`, `InMemDataLookup`, `DiagBufferBuild`,
  `ProcessSv`, `Decide`), and the lemmas state what those functions promise.
- the offline dump tool's dump utilities (`test/offdumptool/exe/Dumputil.cpp`):
  its DDR map builder, its reader by physical address, the search for the
  dump header, the KdDebuggerDataBlock header check, the write by physical
  address, and the merge of separate DDR files into one, whose map locates
  each section in the merged bytes. The merge picks sections in ascending
  base order, a selection sort (`FreshMergeOrder`).
- raw2dump's 64-bit extraction (`raw2dump/src/DumpExtract64.cpp`): the check
  of the Windows dump's physical memory runs against the DDR map, the
  DUMP_HEADER64 it fills and writes, and the copy of every run into the
  dump in 2 MiB transfers. The copy is planned as a list of transfers
  (`RunIos`, `Plan`), and the methods are proved to leave the state that
  copying that list leaves (`CopyAll`), stopped at the first failure.
- the offline dump tool's 64-bit extraction (`test/offdumptool/exe/DumpExtract64.cpp`):
  the DUMP_HEADER64 read from the DDR and checked, with the bug check data
  filled into its zero fields, the ARM64 four-level walk from a virtual to a
  physical address (1 GiB and 2 MiB blocks included) over entries read from
  the DDR, the read by virtual address, and the lookup of the CPU context
  section. The walk is the function `Translate` over a reader of 8-byte
  entries, and the method reading the DDR is proved to return what it does.
- the test dump generator makeRawDump (`tools/makeRawDump`): the command
  line parser (the switch table, the prefix match, each switch handler and
  its repeat guard, and the /DDR:id:base:size store), the default DDR and
  SV section lists, the section table (the DDR sort, the ADJACENT order SV,
  DDR, CPU, and the packed offsets, so that the last section ends at the
  DumpSize the header announces), main's guard that runs the parser only
  when there is an argument (`MakeDumpMain`), the generated RAW_DUMP_HEADER with its
  deliberately bad fields, and the payload writer. The parser's loops are
  methods proved to compute functions (`ArgumentStep`, `CommandArguments`),
  and the writer is a method on a class `Output` standing for the device,
  whose content is proved to be the test pattern from the payload offset
  followed by zero padding. The generator's own quirks are modelled as
  written: the /DDROrder repeat guard tests the proximity
  (`ProximityBlocksOrder`); a padding of 0 bytes makes WritePattern fail
  with E_INVALIDARG, so output to a file, or to a partition the dump fills
  exactly, never succeeds (`WritePayload`); WritePattern's first write is
  not shortened to the size asked for (`PatternOverrun`); and with AP_REG
  excluded the first SV entry keeps the CPU_CONTEXT type of the row it
  skipped (`ExcludedApRegKeepsCpuType`).

The secondary-data routines are methods of a class `DumpFile` whose log
field records the reads of the raw dump and the writes to the dump. Each
routine is proved against a plan: the sequence of reads and writes the
source makes when everything succeeds. Its log is the longest prefix of
that plan that gets through, it succeeds exactly when that prefix is the
whole plan, and on success its offset is advanced by the plan's bytes.
Separate lemmas show that a plan's writes are adjacent, with no gap or
overlap (`WritesEnd`), and that every DUMP_BLOB_HEADER is followed by
exactly the number of data bytes its DataSize announces (`Framing`).

Machine integers are subset types of `int` (`Machine.u8` … `Machine.u64`);
every UINT32/UINT64 sum, difference and product the source computes is
written out with its wrap-around (`Add64`, `Sub32`, `Mul32`, …). Device and
file contents are byte sequences; device reads and allocations are inputs
to the model (their outcome is a parameter). The DMP_CONTEXT structure is a
value that each routine receives and returns.

## Model

| member | source | states |
|---|---|---|
| Machine.Add64 | OffDmpSvc/lib/buildparams.cpp:1912 | UINT64 addition: the exact sum when it fits, the sum less 2^64 otherwise |
| Machine.Sub32 | OffDmpSvc/lib/buildparams.cpp:1965 | UINT32 subtraction: the difference when it is not negative, the difference plus 2^32 otherwise |
| Machine.ToSigned64 | raw2dump/src/dumputil.cpp:2217-2218 | the LARGE_INTEGER reading of a 64-bit pattern: the pattern itself below 2^63, the pattern less 2^64 above |
| RawDumpDefs.EncodeDecodeLE | common/include/RawDumpDefs.h:96-113 | decoding the n-byte little-endian encoding of v gives v modulo 256^n |
| RawDumpDefs.DecodeEncodeLE | common/include/RawDumpDefs.h:96-113 | encoding a byte sequence's little-endian value back in as many bytes gives the sequence |
| RawDumpDefs.CpuArchitectureIsFirstTwoBytes | common/include/RawDumpDefs.h:82-86 | u.CPUContextInformation.Architecture is the little-endian value of the union's first two bytes |
| RawDumpDefs.SvSpecificData | common/include/RawDumpDefs.h:89-94 | the SV specific data is the 16 bytes of the section's union |
| RawDumpDefs.FirstOfType | common/lib/Dump_Header.cpp:172-175 | the index found has the type and no earlier entry has it; none found means no entry has it |
| RawDumpDefs.FirstOfTypeIffCount | common/lib/Dump_Header.cpp:172-177 | a first entry of a type exists exactly when the count of that type is nonzero |
| RawDumpDefs.DdrSectionsInTable | OffDmpSvc/lib/buildparams.cpp:1382-1386 | the DDR sections pointer set by a scan plus the DDR count stay inside the table |
| DumpHeader.IsValidRawDumpHeader | common/lib/Dump_Header.cpp:58-96 | TRUE exactly when a header is present and all five checks pass; lastError is RAW_DUMP_ARGS for no header and otherwise names the first failing check in order |
| DumpHeader.ValidateRawDumpSectionTable | common/lib/Dump_Header.cpp:127-213 | missing arguments or a zero count give E_INVALIDARG with the stats untouched; otherwise the stats are the tally of every entry, lastError is that of the last failing entry, and the result is S_OK exactly when lastError is OK |
| DumpHeader.CheckEntry | common/lib/Dump_Header.cpp:148-167 | the version, flag and storage-flag counters each grow by one exactly when the entry fails that check; lastError is the last of its failing checks |
| DumpHeader.TallyEntryType | common/lib/Dump_Header.cpp:169-201 | after the type switch every per-type count, total, maximum, first DDR index and architecture equals its definition over the prefix one longer |
| DumpHeader.TallyDdr | common/lib/Dump_Header.cpp:171-179 | a DDR entry is remembered when it is the first, and the DDR count and total take it in |
| DumpHeader.TallyCpu | common/lib/Dump_Header.cpp:181-185 | a CPU entry adds one to the count and its size to the total |
| DumpHeader.TallySv | common/lib/Dump_Header.cpp:187-195 | an SV entry updates the largest size, the count and the total |
| DumpHeader.LastErrorStep | common/lib/Dump_Header.cpp:148-201 | scanning an entry sets lastError to the last of its failing checks in scan order, else keeps it |
| DumpHeader.LastErrorOkIff | common/lib/Dump_Header.cpp:205-208 | lastError stays OK exactly when no entry failed any check |
| DumpHeader.LastErrorIsOfLastFailingEntry | common/lib/Dump_Header.cpp:148-201 | lastError names a check of the highest-index failing entry, not of the first |
| DumpHeader.TypeCountsPartition | common/lib/Dump_Header.cpp:169-201 | the DDR, CPU, SV and unknown-type counts add up to the number of entries scanned |
| DumpHeader.MaxSizeOfTypeIsMax | common/lib/Dump_Header.cpp:188-191 | the largest SV size bounds every SV entry and, when nonzero, is the size of one of them |
| DumpHeader.SumSizeOfTypeIsWrappedSum | common/lib/Dump_Header.cpp:178 | the running UINT64 total is the plain sum of the sizes reduced modulo 2^64 |
| DumpHeader.CountFails | common/lib/Dump_Header.cpp:150 | a failure count never exceeds the number of entries scanned |
| BuildParams.ValidateRawDumpHeaderFlags | OffDmpSvc/lib/buildparams.cpp:2198-2253 | a flag word passes exactly when it has no reserved bit and at most one of VALID and INSUFFICIENT_STORAGE; 0 passes |
| BuildParams.RawDumpTableSize | OffDmpSvc/lib/buildparams.cpp:1256-1258 | the UINT32 table size sizeof(RAW_DUMP_HEADER) + (SectionsCount - 1) * sizeof(RAW_DUMP_SECTION_HEADER) of the packed structures (120 and 64 bytes), that is (56 + 64 * SectionsCount) modulo 2^32 |
| BuildParams.RawDumpTableSizeExact | OffDmpSvc/lib/buildparams.cpp:1256-1258 | the table size is exactly 56 + 64 * SectionsCount when SectionsCount is at most 67,108,863, and wraps for every larger count |
| BuildParams.VerifyRawDumpHeader | OffDmpSvc/lib/buildparams.cpp:1157-1278 | S_OK exactly when the header read succeeds, the five checks pass, the table buffer is allocated and the re-read succeeds; the read's HRESULT when a read fails, E_FAIL for a failed check; the recorded RawDumpTableSize is the packed (56 + 64 * SectionsCount) modulo 2^32 |
| BuildParams.VerifyRawDumpSectionTable | OffDmpSvc/lib/buildparams.cpp:1288-1458 | the counters are the tally of the SectionsCount entries (CPU and SV totals accumulate onto their old values); the table is valid exactly when it has a DDR section and no entry fails a check |
| BuildParams.ScanEntry | OffDmpSvc/lib/buildparams.cpp:1338-1417 | one turn of the scan: the context after entry k is the scanned context of the prefix one longer |
| BuildParams.CheckEntryFaults | OffDmpSvc/lib/buildparams.cpp:1342-1372 | the version, flag and storage-flag counters each count the failing entries of the longer prefix |
| BuildParams.TallyEntryType | OffDmpSvc/lib/buildparams.cpp:1374-1417 | the type switch: the type tallies are those of the longer prefix |
| BuildParams.TallyStep | OffDmpSvc/lib/buildparams.cpp:1374-1417 | the tallies after entry k are their definitions over the first k + 1 entries |
| BuildParams.TypeStepOthers | OffDmpSvc/lib/buildparams.cpp:1374-1417 | an entry leaves the tallies of the types it does not have unchanged |
| BuildParams.CountFaulty | OffDmpSvc/lib/buildparams.cpp:1338-1372 | a fault count never exceeds the number of entries scanned |
| BuildParams.ScanLeavesDdrRunInTable | OffDmpSvc/lib/buildparams.cpp:1382-1386 | after a successful scan the DDR run BuildDDRMemoryMap copies lies inside the table |
| BuildParams.BuildDDRMemoryMap | OffDmpSvc/lib/buildparams.cpp:1500-1630 | E_OUTOFMEMORY without a map; E_BAD_DATA at the first non-DDR run entry with the map filled before it; otherwise the map is a sorted permutation of the run's entries, E_BAD_DATA at a degenerate entry, E_BAD_DATA with overlaps, and S_OK exactly when neither; Contiguous is never set |
| BuildParams.SortAndCheck | OffDmpSvc/lib/buildparams.cpp:1565-1628 | the map is sorted by Base and a permutation of the filled map; holes and overlaps up to the first degenerate entry are added to the counters |
| BuildParams.SanityPass | OffDmpSvc/lib/buildparams.cpp:1582-1616 | stops at the first entry with End < Base or Size 0 and counts, before it, the holes and overlaps between neighbours in UINT32 |
| BuildParamsReader.LocateAndCopyRawDump | OffDmpSvc/lib/buildparams.cpp:328-396 | a found SVRawDump partition gives EMMC and RAW; else a found rawdump.bin gives SD and FILE; else both stay INVALID and the search result is returned |
| BuildParamsReader.ReadFromDDRSectionByPhysicalAddress | OffDmpSvc/lib/buildparams.cpp:1872-2010 | the result is that of the read plan and the buffer is the old buffer with the plan's reads applied in order |
| BuildParamsReader.ReadLoop | OffDmpSvc/lib/buildparams.cpp:1920-2004 | the result is one of S_OK, E_FAIL and HRESULT_FROM_NT(STATUS_INVALID_PARAMETER), S_OK comes only after a read, and the reads already made are kept |
| BuildParamsReader.ReadPlanFaithful | OffDmpSvc/lib/buildparams.cpp:1936-1950 | every read starts in an entry holding its first address, at diskoffset + (address - Base) + Offset, and runs to that entry's End or the request's end |
| BuildParamsReader.ReadLoopFaithful | OffDmpSvc/lib/buildparams.cpp:1920-1991 | the loop only adds faithful reads to those already made |
| BuildParamsReader.ReadLoopSkips | OffDmpSvc/lib/buildparams.cpp:1920-1937 | before the first read, entries that do not hold the address are passed over |
| BuildParamsReader.ReadLoopReads | OffDmpSvc/lib/buildparams.cpp:1936-1989 | one turn over the entry holding the address reads a chunk, then stops on 0 remaining or continues from the next entry |
| BuildParamsReader.NoContiguousReadIsSingleSection | OffDmpSvc/lib/buildparams.cpp:1924-1931 | over a map without Contiguous entries a read succeeds exactly when the first entry holding its first byte also holds its last, as one read of the whole length; a read that runs past that entry into another fails with STATUS_INVALID_PARAMETER |
| BuildParamsReader.ReadPlanCoversRequest | OffDmpSvc/lib/buildparams.cpp:1946-1989 | a successful read of 1 to 2^32 - 1 bytes that does not wrap fills exactly the requested bytes in physical address order, one read after another |
| BuildParamsReader.ReadLoopCovers | OffDmpSvc/lib/buildparams.cpp:1920-1991 | the loop keeps the reads made so far consecutive and, on success, their total is the request's length |
| BuildParamsReader.ReadLoopCoversRead | OffDmpSvc/lib/buildparams.cpp:1936-1989 | a read from the entry holding the current address keeps the reads consecutive |
| BuildParamsReader.ReadLoopCoversOnward | OffDmpSvc/lib/buildparams.cpp:1967-1981 | a read that leaves bytes to go moves the address and the buffer on by its length |
| DdrMemoryMap.EndOf | OffDmpSvc/lib/buildparams.cpp:1550 | End = Base + Size - 1 when that does not wrap; Base 0 and Size 0 give 2^64 - 1 |
| DdrMemoryMap.EndOfWrapsIff | OffDmpSvc/lib/buildparams.cpp:1584 | for a nonzero size, End < Base exactly when Base + Size wraps past 2^64 |
| DdrMemoryMap.BubbleSortByBase | OffDmpSvc/lib/buildparams.cpp:1565-1578 | the map ends sorted by Base and is a permutation of the map it started as |
| DdrMemoryMap.BubblePass | OffDmpSvc/lib/buildparams.cpp:1567-1577 | one pass carries the largest Base of the unsorted part to its end, keeping a permutation |
| DdrMemoryMap.OrderNeighbours | OffDmpSvc/lib/buildparams.cpp:1569-1576 | exchanging an out-of-order pair keeps a permutation and carries the running maximum one place on |
| DdrMemoryMap.SwapNeighbours | OffDmpSvc/lib/buildparams.cpp:1571-1575 | the three copies through the temporary record exchange entries j and j + 1 and nothing else |
| DdrMemoryMap.NeighboursSortedIsSorted | OffDmpSvc/lib/buildparams.cpp:1565-1578 | a map whose neighbours are in order is sorted |
| DdrMemoryMap.Classify | raw2dump/src/dumputil.cpp:804-826 | corrected classification of neighbours: a hole exactly when the previous End + 1 is below the next Base, an overlap exactly when the previous End reaches it, else adjacent |
| DdrMemoryMap.ClassifyAsWrittenAgrees | OffDmpSvc/lib/buildparams.cpp:1598-1616 | the code as written agrees with the corrected classification whenever the next Base is not 0 |
| DdrMemoryMap.ClassifyAsWrittenMissesOverlapAtZero | OffDmpSvc/lib/buildparams.cpp:1607 | as written, two entries both starting at address 0 are counted as a hole, not an overlap |
| DdrMemoryMap.CountPairs | OffDmpSvc/lib/buildparams.cpp:1598-1616 | the count of neighbouring pairs of one kind never exceeds the number of entries |
| DdrMemoryMap.FirstDegenerate | OffDmpSvc/lib/buildparams.cpp:1582-1596 | the entry found has End < Base or Size 0 and no earlier entry does; none found means no entry does |
| DdrMemoryMap.StopIndex | OffDmpSvc/lib/buildparams.cpp:1582-1596 | the sanity pass stops inside the map |
| DdrMemoryMap.NoOverlapPairs | OffDmpSvc/lib/buildparams.cpp:1611-1614 | no counted overlap means every End is below the next Base |
| DdrMemoryMap.SortedNoOverlapDisjoint | OffDmpSvc/lib/buildparams.cpp:1582-1628 | a map accepted without overlaps is a list of disjoint, strictly increasing intervals |
| DdrMemoryMap.ChainDisjoint | OffDmpSvc/lib/buildparams.cpp:1582-1628 | disjointness of neighbours extends to every pair |
| DdrMemoryMap.PairsPartition | OffDmpSvc/lib/buildparams.cpp:1598-1616 | holes, adjacencies and overlaps account for every neighbouring pair exactly once |
| DdrMemoryMap.FirstContaining | OffDmpSvc/lib/buildparams.cpp:1936-1937 | the entry found holds the address and no earlier one does; none found means none holds it |
| DdrMemoryMap.CopyIn | OffDmpSvc/lib/buildparams.cpp:1954-1955 | a positioned read copies the disk range into the buffer at its position and leaves the rest; a range outside the disk or buffer copies nothing |
| DdrMemoryMap.ApplyChunks | OffDmpSvc/lib/buildparams.cpp:1954-1955 | performing reads never changes the buffer's length |
| DdrMemoryMap.ApplyChunksSnoc | OffDmpSvc/lib/buildparams.cpp:1954-1955 | one more read after a list of reads is that read applied to their result |
| DdrMemoryMap.CopyToBuffer | OffDmpSvc/lib/buildparams.cpp:1954-1955 | the buffer becomes the old buffer with the disk range copied in |
| DdrMemoryMap.FillDdrMap | OffDmpSvc/lib/buildparams.cpp:1543-1560 | the map holds the entries of the run up to its first non-DDR section, the rest stays zeroed, and the total is the sum of their sizes |
| DdrMemoryMap.FillFromNotContiguous | OffDmpSvc/lib/buildparams.cpp:1543-1560 | no filled entry is Contiguous |
| DdrMemoryMap.PermutationKeepsNotContiguous | OffDmpSvc/lib/buildparams.cpp:1565-1578 | sorting cannot make an entry Contiguous |
| DdrMemoryMap.ChunkLength | OffDmpSvc/lib/buildparams.cpp:1946-1948 | bytesToRead runs to the section's End or the request's end, whichever comes first |
| DdrMemoryMap.TranslateOffset | OffDmpSvc/lib/buildparams.cpp:1950 | the disk offset is diskoffset + (address - Base) + Offset when that does not wrap |
| DdrMemoryMap.CoverStep | OffDmpSvc/lib/buildparams.cpp:1946-1981 | one read of a request made so far keeps the reads consecutive, moves the position on by its length, and on the last read completes the request |
| Raw2DumpUtil.VerifyRawDumpHeaderAsWritten | raw2dump/src/dumputil.cpp:420-511 | as written: a failed header read and also a read of zero bytes leave with the read's HRESULT, before any check |
| Raw2DumpUtil.HeaderChecks | raw2dump/src/dumputil.cpp:432-504 | S_OK exactly when the five checks pass, the table is allocated and read; a failed check is E_FAIL |
| Raw2DumpUtil.VerifyRawDumpHeader | raw2dump/src/dumputil.cpp:386-511 | corrected: S_OK exactly when both reads deliver bytes, the five checks pass and the table is allocated; the header and the whole table are then in the context |
| Raw2DumpUtil.HeaderAsWrittenAgrees | raw2dump/src/dumputil.cpp:420-504 | when both reads deliver bytes, the code as written and the corrected reading agree |
| Raw2DumpUtil.EmptyFileHeaderAccepted | raw2dump/src/dumputil.cpp:420-430 | an empty raw file is accepted as written with a header that fails the checks; the corrected reading fails |
| Raw2DumpUtil.ZeroedTable | raw2dump/src/dumputil.cpp:484-490 | the zeroed table allocation has one zero entry per section |
| Raw2DumpUtil.LastDdr | raw2dump/src/dumputil.cpp:606-636 | lastDDRSectionIndex is 0 or an index of the table |
| Raw2DumpUtil.LastDdrIsLast | raw2dump/src/dumputil.cpp:606-636 | lastDDRSectionIndex names the last DDR entry, and no later entry is DDR |
| Raw2DumpUtil.Gaps | raw2dump/src/dumputil.cpp:616-630 | the fragmentation count never exceeds the number of entries |
| Raw2DumpUtil.GapsZeroIffAdjacent | raw2dump/src/dumputil.cpp:616-630 | no fragmentation is counted exactly when the DDR entries of the table are neighbours |
| Raw2DumpUtil.GapWitness | raw2dump/src/dumputil.cpp:616-630 | a counted gap has two DDR entries with a non-DDR entry between them |
| Raw2DumpUtil.VerifyRawDumpSectionTable | raw2dump/src/dumputil.cpp:515-690 | the context is the tally of the table (map count and CPU and SV totals accumulate); STATUS_SUCCESS exactly when no entry fails a check and no type is unknown; InvalidSectionCount gains one whenever its test is reached |
| Raw2DumpUtil.ScanTable | raw2dump/src/dumputil.cpp:563-657 | the scan's context is the scanned context of the whole table |
| Raw2DumpUtil.ScanStartsFromReset | raw2dump/src/dumputil.cpp:545-561 | before the first entry the scanned context is the context with its counters reset |
| Raw2DumpUtil.Verdict | raw2dump/src/dumputil.cpp:663-687 | STATUS_SUCCESS exactly when no version, flag, storage or type fault was counted; the type count's post-increment applied when it is tested |
| Raw2DumpUtil.ScanEntry | raw2dump/src/dumputil.cpp:563-657 | one turn of the scan: the scanned context and last DDR index of the longer prefix |
| Raw2DumpUtil.EntryFaults | raw2dump/src/dumputil.cpp:567-595 | the version, flag and storage counters count the failing entries of the longer prefix |
| Raw2DumpUtil.TallyStep | raw2dump/src/dumputil.cpp:597-656 | the type switch: the tallies are those of the longer prefix |
| Raw2DumpUtil.DdrStep | raw2dump/src/dumputil.cpp:598-636 | how the last DDR index, the fragmentation count and the first DDR entry change with one entry |
| Raw2DumpUtil.DdrEntryTally | raw2dump/src/dumputil.cpp:598-637 | a DDR entry bumps the map and DDR counts, is remembered when first, and counts a gap when it is not next to the previous DDR entry |
| Raw2DumpUtil.CpuEntryTally | raw2dump/src/dumputil.cpp:638-642 | a CPU entry adds to the CPU count and total |
| Raw2DumpUtil.SvEntryTally | raw2dump/src/dumputil.cpp:643-654 | an SV entry updates the largest size, the count and the total |
| Raw2DumpUtil.OtherEntryTally | raw2dump/src/dumputil.cpp:655-656 | an unknown type adds to InvalidSectionCount only |
| Raw2DumpUtil.ScanAcceptsTableWithoutDdr | raw2dump/src/dumputil.cpp:663-687 | a table of one well-formed CPU entry passes the scan with no DDR section |
| Raw2DumpUtil.MarkContiguous | raw2dump/src/dumputil.cpp:804-830 | marking keeps the map's length |
| Raw2DumpUtil.MarksOf | raw2dump/src/dumputil.cpp:804-830 | marking changes only Contiguous marks, and an entry is marked exactly when it was or it is first or adjacent to its predecessor before the stop |
| Raw2DumpUtil.MarkAt | raw2dump/src/dumputil.cpp:804-830 | the entry keeps everything but its mark, set when it is first or adjacent to its predecessor |
| Raw2DumpUtil.Plain | raw2dump/src/dumputil.cpp:804-830 | clearing every mark keeps every other field |
| Raw2DumpUtil.BuildDDRMemoryMap | raw2dump/src/dumputil.cpp:695-846 | STATUS_UNSUCCESSFUL without work when both counters are nonzero; STATUS_NO_MEMORY without a map; STATUS_BAD_DATA at the first non-DDR entry; otherwise a sorted permutation of the run with Contiguous marks, BAD_DATA at a degenerate entry, UNSUCCESSFUL with overlaps, SUCCESS exactly when neither |
| Raw2DumpUtil.SortAndMark | raw2dump/src/dumputil.cpp:767-846 | the unmarked map is a sorted permutation, the marks are those of the sanity pass up to its stop, and the verdict follows the degenerate entry and the overlap count |
| Raw2DumpUtil.MarkedMapWellFormed | raw2dump/src/dumputil.cpp:788-846 | a map accepted without overlaps is disjoint and increasing, and each entry is Contiguous exactly when first or adjacent to its predecessor |
| Raw2DumpUtil.MarkingSanityPass | raw2dump/src/dumputil.cpp:788-831 | the pass marks the map up to its stop and counts holes and overlaps |
| Raw2DumpUtil.SanityLoop | raw2dump/src/dumputil.cpp:788-831 | the loop stops at the first degenerate entry and counts holes and overlaps before it |
| Raw2DumpUtil.SanityStep | raw2dump/src/dumputil.cpp:804-830 | one entry of the pass: its mark and its pair's hole or overlap |
| Raw2DumpUtil.PairCountStep | raw2dump/src/dumputil.cpp:804-826 | the hole and overlap counts grow by the kind of one more pair |
| Raw2DumpUtil.PlainOfUnmarked | raw2dump/src/dumputil.cpp:767-780 | a map without marks is its own unmarked form |
| Raw2DumpUtil.PlainOfMarked | raw2dump/src/dumputil.cpp:804-830 | marking does not change the unmarked form |
| Raw2DumpUtil.SortPassBoundAsWritten | raw2dump/src/dumputil.cpp:767 | as written, the UINT32 bound DDRMemoryMapCount - 1 with a count of 0 is 2^32 - 1 |
| Raw2DumpUtil.EmptyMapSortReadsPastEnd | raw2dump/src/dumputil.cpp:767-771 | as written, with no DDR section the sort compares entries 0 and 1 of an empty map |
| Raw2DumpUtil.SortPassBound | raw2dump/src/dumputil.cpp:767 | corrected: the number of passes is the count less one, and none for an empty map |
| Raw2DumpReader.ReadFromDDRSectionByPhysicalAddress | raw2dump/src/dumputil.cpp:1239-1400 | corrected reader: the status is that of the read plan and the buffer is the old buffer with the plan's reads applied in order |
| Raw2DumpReader.ReadPlanFaithful | raw2dump/src/dumputil.cpp:1309-1348 | every read starts in an entry holding its first address, at fileOffset + (address - Base) + Offset, ends at that entry's End or the request's end, and lies in the raw file |
| Raw2DumpReader.ReadLoopFaithful | raw2dump/src/dumputil.cpp:1293-1383 | the loop only adds faithful reads to those already made |
| Raw2DumpReader.ReadLoopFaithfulRead | raw2dump/src/dumputil.cpp:1309-1381 | a read from the entry holding the current address is faithful and in the file |
| Raw2DumpReader.ReadLoopStatus | raw2dump/src/dumputil.cpp:1239-1400 | the reader returns SUCCESS, UNSUCCESSFUL or INVALID_PARAMETER, and SUCCESS only after a read |
| Raw2DumpReader.ReadLoopSkips | raw2dump/src/dumputil.cpp:1293-1309 | before the first read, entries that do not hold the address are passed over |
| Raw2DumpReader.UnmappedAddressFails | raw2dump/src/dumputil.cpp:1293-1394 | an address no entry holds gives STATUS_UNSUCCESSFUL and no read |
| Raw2DumpReader.ReadPlanCoversRequest | raw2dump/src/dumputil.cpp:1284-1381 | a successful read of a request that does not wrap fills exactly its bytes in physical address order |
| Raw2DumpReader.ReadLoopCovers | raw2dump/src/dumputil.cpp:1293-1383 | the loop keeps the reads consecutive and on success their total is the request's length |
| Raw2DumpReader.ReadLoopCoversRead | raw2dump/src/dumputil.cpp:1309-1381 | a read from the entry holding the current address keeps the reads consecutive |
| Raw2DumpReader.ReadLoopCoversChunk | raw2dump/src/dumputil.cpp:1358-1381 | after a read, the rest of the loop completes the request consecutively |
| Raw2DumpReader.CoverNext | raw2dump/src/dumputil.cpp:1358-1381 | a read of 1 to bytesRemain bytes extends the run consecutively, to the request's end once nothing remains |
| Raw2DumpReader.ReadLoopReads | raw2dump/src/dumputil.cpp:1309-1381 | one turn over the entry holding the address: reject an out-of-file offset, else read a chunk, then stop on 0 remaining or continue |
| Raw2DumpReader.ReadLoopPasses | raw2dump/src/dumputil.cpp:1293-1309 | one turn over an entry that does not hold the address changes nothing but the index |
| Raw2DumpReader.ReadSection | raw2dump/src/dumputil.cpp:1309-1381 | the loop body for the holding entry: returns as the plan does, or leaves state and buffer where the plan's next turn begins |
| Raw2DumpReader.AsWrittenDestStaysZero | raw2dump/src/dumputil.cpp:1367 | as written, every read lands at the start of the buffer |
| Raw2DumpReader.AsWrittenSpanningReadOverwrites | raw2dump/src/dumputil.cpp:1367 | as written, a read needing two or more sections puts every piece at the buffer's start, so the pieces are not consecutive |
| Raw2DumpReader.ConsecutiveMovesDest | raw2dump/src/dumputil.cpp:1367 | in consecutive reads the second and later pieces land after the buffer's start |
| Raw2DumpReader.ConsecutiveCountsPositive | raw2dump/src/dumputil.cpp:1318-1320 | no read of a consecutive plan is empty |
| Raw2DumpReader.RunStart | raw2dump/src/dumputil.cpp:902 | a run's start is BasePage * PAGE_SIZE in the multiplication width of the layout |
| Raw2DumpReader.RunLength | raw2dump/src/dumputil.cpp:903 | a run's length is PageCount * PAGE_SIZE in the multiplication width of the layout |
| Raw2DumpReader.CheckRun | raw2dump/src/dumputil.cpp:904-966 | the inner loop's outcome for one run is that of its specification over the DDR sections |
| Raw2DumpReader.CheckRuns | raw2dump/src/dumputil.cpp:901-969 | all runs pass exactly when every one of them is accepted |
| Raw2DumpReader.MemorySizeFromPD32 | raw2dump/src/dumputil.cpp:890 | the described memory size is NumberOfPages * PAGE_SIZE truncated to UINT32 |
| Raw2DumpReader.ValidateDDRAgainstPhysicalMemoryBlock | raw2dump/src/dumputil.cpp:850-975 | the described size is recorded; success exactly when it is within the DDR total and every run's start and end are found in contiguous DDR sections; BAD_DATA otherwise |
| Raw2DumpReader.RunCheckFound | raw2dump/src/dumputil.cpp:930-948 | the first section holding a run's start decides, the check then follows contiguous sections to the run's end |
| Raw2DumpReader.RunCheckSearching | raw2dump/src/dumputil.cpp:910-949 | while searching for the start, the check skips sections that do not hold it |
| Raw2DumpReader.AcceptedRunIsMapped | raw2dump/src/dumputil.cpp:901-969 | an accepted run starts in one DDR section and ends in a later or the same one, with every section between them Contiguous |
| Raw2DumpReader.RunCheckSkips | raw2dump/src/dumputil.cpp:955-960 | a run whose start no section holds is refused with the start-outside outcome |
| Raw2DumpReader.RunCheckBySingleSection | raw2dump/src/dumputil.cpp:935-940 | a run held by the first section holding its start is accepted |
| Raw2DumpReader.FindRun | raw2dump/src/dumputil.cpp:2201-2231 | the run found is the first that holds the request, with offset the length of the runs before it; none found means no run holds it |
| Raw2DumpReader.LengthBeforeStep | raw2dump/src/dumputil.cpp:2230 | the offset grows by each passed run's length |
| Raw2DumpReader.WriteToDumpByPhysicalAddress | raw2dump/src/dumputil.cpp:2132-2274 | no run holding the request gives STATUS_INVALID_PARAMETER and no write; otherwise one write at (PA - run start) + prior runs' length + DDRFileOffset, SUCCESS exactly when the write succeeds |
| Raw2DumpReader.LengthBeforeIsPlain | raw2dump/src/dumputil.cpp:2230 | without wrap-around the offset is the plain sum of the prior runs' lengths |
| Raw2DumpReader.WriteOffsetIsRunLayout | raw2dump/src/dumputil.cpp:2243 | without wrap-around the write offset is the address's place in the dump, runs laid out one after another after DDRFileOffset |
| Raw2DumpReader.PlainLengthPrefix | raw2dump/src/dumputil.cpp:2230 | the plain length of prior runs depends only on those runs |
| Raw2DumpReader.PlainLengthSnoc | raw2dump/src/dumputil.cpp:2230 | one more run adds its length to the plain total |
| Raw2DumpCompleteMap.PagesToBytes | raw2dump/src/dumputil.cpp:3124-3130 | PAGES_TO_BYTES is BasePage or PageCount times 4096 when the product fits in UINT64 |
| Raw2DumpCompleteMap.MapPiece | raw2dump/src/dumputil.cpp:3163-3172 | a map entry cut from a DDR entry has the given Base, End and Type, that DDR entry's index, no Contiguous mark, and Size and Offset by their UINT64 formulas |
| Raw2DumpCompleteMap.BuildCompleteMemoryMap | raw2dump/src/dumputil.cpp:3018-3282 | corrected builder: the status and context are those of the complete map built by the for and while loops, the final entry and the sanity check, its non-OS total counting non-OS entries only |
| Raw2DumpCompleteMap.CutRun | raw2dump/src/dumputil.cpp:3133-3160 | one turn's cut is the gap before the run (non-OS below NON_OS_MEMORY_LIMIT or before a short run, else unavailable) or the run's OS part inside the DDR entry; the run is used up exactly when it ends inside the entry |
| Raw2DumpCompleteMap.WalkEntry | raw2dump/src/dumputil.cpp:3110-3196 | the while loop over one DDR entry leaves the state its specification gives, only adding entries, and adds an entry whenever it uses up a run |
| Raw2DumpCompleteMap.CompleteMapBounded | raw2dump/src/dumputil.cpp:3073-3076 | the map never holds more than the NumberOfRuns * 4 entries allocated for it |
| Raw2DumpCompleteMap.CompleteMapPieces | raw2dump/src/dumputil.cpp:3163-3172 | every entry of the map is cut from one of the DDR entries, with their Size and Offset formulas, and is OS, non-OS or unavailable |
| Raw2DumpCompleteMap.CompleteMapTiled | raw2dump/src/dumputil.cpp:3102-3239 | no DDR entries give an empty map; otherwise the entries tile one range from the first DDR Base, each starting right after the one before ends |
| Raw2DumpCompleteMap.CompleteMapNonOsTotal | raw2dump/src/dumputil.cpp:3191-3193 | counting only non-OS entries, TotalNonOSDDRSizeInBytes is the UINT64 total size of the map's non-OS entries |
| Raw2DumpCompleteMap.BuildResultMeaning | raw2dump/src/dumputil.cpp:3060-3281 | STATUS_NO_MEMORY exactly without the allocation; on success the count is the map's length within the allocation, the map is tiled pieces of the DDR map and the non-OS plus OS sizes are within the DDR total; STATUS_UNSUCCESSFUL exactly when they are not |
| Raw2DumpCompleteMap.AsWrittenCountsUnavailableTail | raw2dump/src/dumputil.cpp:3237 | as written, a final entry typed unavailable still adds its 0x3000_0000 bytes to the non-OS total while no entry is non-OS |
| SettingsChecksum.ByteSum | OffDmpSvc/wp_port/wpcrdmpsettings.h:303-311 | the plain sum of n bytes is at most 255 * n |
| SettingsChecksum.SettingsCalcCheckSum | OffDmpSvc/wp_port/wpcrdmpsettings.h:275-313 | the UINT32 accumulator loop returns the byte sum modulo 2^32 |
| SettingsChecksum.ChecksumEmpty | OffDmpSvc/wp_port/wpcrdmpsettings.h:303 | no bytes give checksum 0 |
| SettingsChecksum.ByteSumAppend | OffDmpSvc/wp_port/wpcrdmpsettings.h:305-309 | the byte sum of two blocks one after the other is the sum of their byte sums |
| SettingsChecksum.ChecksumAppend | OffDmpSvc/wp_port/wpcrdmpsettings.h:305-309 | the checksum of two blocks is the UINT32 sum of their checksums |
| SettingsChecksum.ChecksumBound | OffDmpSvc/wp_port/wpcrdmpsettings.h:305-309 | while 255 * n is below 2^32 the accumulator never wraps: the checksum is the plain byte sum |
| Raw2DumpFakeHeader.FoldedParam3 | raw2dump/src/dumputil.cpp:3378-3381 | the folded BugCheckParameter3 holds three bytes only: it is below 2^24 |
| Raw2DumpFakeHeader.WriteFakeDumpHeader | raw2dump/src/dumputil.cpp:3329-3410 | DHS_UNKNOWN and DHS_VALID give S_OK with the header untouched and nothing written; the other three statuses rewrite the four parameters, write that header and return HRESULT_FROM_NT of the write |
| Raw2DumpFakeHeader.UnfoldParam3 | raw2dump/src/dumputil.cpp:3377-3381 | the low bytes of the three attempted parameters are bytes 0, 1 and 2 of BugCheckParameter3 and can be read back from it |
| Raw2DumpFakeHeader.FakeHeaderMeaning | raw2dump/src/dumputil.cpp:3362-3384 | a best-effort header keeps its bug check code, has BugCheckParameter1 0xFFFF, BugCheckParameter2 0 exactly for a missing AP_REG and 1 exactly otherwise, and BugCheckParameter4 the in-memory data VA when it fits in a ULONG |
| SvPlan.Done | raw2dump/src/WriteSVSections.cpp:59-69 | the events a routine gets through are a prefix of its plan, stopping before the first write or read that fails |
| SvPlan.DoneThen | raw2dump/src/WriteSVSections.cpp:136-139 | a routine made of two parts stops in the first when that fails, and otherwise goes on to the second; the whole gets through exactly when both parts do |
| SvPlan.RunThen | raw2dump/src/WriteSVSections.cpp:357-372 | the log of "run the first part, and the second only if the first succeeded" is the log of the two parts' plan, which succeeds exactly when both do |
| SvPlan.StepFail | raw2dump/src/WriteSVSections.cpp:266-269 | once a step of a loop fails, the loop's log stops inside that step, short of its plan |
| SvPlan.StepPass | raw2dump/src/WriteSVSections.cpp:254-296 | a step that succeeds moves the loop on with its events added to what got through |
| SvPlan.AsWrittenShortReadSucceeds | raw2dump/src/WriteSVSections.cpp:180-183 | as written, a read at the end of the raw dump that gets no bytes, or one that gets 8 of 16, leaves WpDmppReadFromRawDump with STATUS_SUCCESS, though neither read fits the file |
| SvPlan.IterationsStep | raw2dump/src/WriteSVSections.cpp:240-246 | the iteration count is zero exactly for no bytes, and one IO_BUFFER_SIZE chunk less needs one iteration less |
| SvPlan.CopyPlanStep | raw2dump/src/WriteSVSections.cpp:254-296 | a copy of some bytes is the read and write of the first chunk of at most IO_BUFFER_SIZE bytes followed by the copy of the rest, both offsets advanced |
| SvPlan.CopyPlanLength | raw2dump/src/WriteSVSections.cpp:240-254 | a copy has a read and a write for each of its ceil(BytesToCopy / IO_BUFFER_SIZE) iterations |
| SvPlan.WritesEndAppend | raw2dump/src/WriteSVSections.cpp:66 | writes done one after another from a cursor end where the second group, started at the first's end, ends |
| SvPlan.FramingAppend | raw2dump/src/WriteSVSections.cpp:115-128 | the blob framing of two groups of writes is that of the second started with what the first left pending |
| SvPlan.WritesEndChain | raw2dump/src/WriteSVSections.cpp:66 | two groups of adjacent writes, the second starting where the first ends, end where the second ends |
| SvPlan.FramingChain | raw2dump/src/WriteSVSections.cpp:115-128 | two groups of writes that each frame their blobs exactly frame them together |
| SvPlan.ChunkPairLayout | raw2dump/src/WriteSVSections.cpp:255-286 | one chunk's read and write end the dump cursor a chunk further on and use a chunk of the pending blob data, failing the framing when less is pending |
| SvPlan.CopyPlanEnd | raw2dump/src/WriteSVSections.cpp:254-296 | a copy's writes are adjacent and end BytesToCopy bytes after the dump offset |
| SvPlan.CopyPlanFraming | raw2dump/src/WriteSVSections.cpp:254-296 | a copy uses up BytesToCopy bytes of the pending blob data, and breaks the framing when fewer are pending |
| SvPlan.NonOsCopiesAt | raw2dump/src/WriteSVSections.cpp:400-423 | the copies of the map from entry i on are entry i's copy (none for an entry not MEMORY_NONOS) followed by the copies of the rest from the advanced offset |
| SvPlan.NonOsCopiesStep | raw2dump/src/WriteSVSections.cpp:400-423 | one turn of the loop over the map: a copy that succeeds leaves the rest of the plan from the advanced offset; one that fails ends the log short of the plan |
| SvPlan.EntryCopyLayout | raw2dump/src/WriteSVSections.cpp:401-420 | a MEMORY_NONOS entry's copy writes (UINT32)Size adjacent bytes and uses that much blob data; any other entry writes nothing |
| SvPlan.NonOsCopiesEnd | raw2dump/src/WriteSVSections.cpp:400-423 | the copies of the non-OS entries are adjacent and end their total (UINT32) size after the start |
| SvPlan.NonOsCopiesFraming | raw2dump/src/WriteSVSections.cpp:400-423 | the copies of the non-OS entries use their total size of pending blob data, and break the framing when less is pending |
| SvPlan.NonOsPlanLayout | raw2dump/src/WriteSVSections.cpp:349-423 | WpDmppWriteNonOSDDR's writes are adjacent from the dump offset; its two blobs are exactly framed exactly when the non-OS entries' (UINT32) sizes add up to the (ULONG) data size of the NON_OS_DDR blob header |
| SvPlan.NonOsBytesSnoc | raw2dump/src/WriteSVSections.cpp:400-422 | one more map entry adds its non-OS part to the bytes copied |
| SvPlan.NonOsBytesIsNonOsSum | raw2dump/src/WriteSVSections.cpp:400-422 | when no non-OS entry is 4 GiB or more and the total fits in UINT64, the bytes the loop copies are the builder's TotalNonOSDDRSizeInBytes |
| SvPlan.NonOsBlobFramed | raw2dump/src/WriteSVSections.cpp:385-423 | with the non-OS total the complete map builder computes, and non-OS sizes under 4 GiB, the NON_OS_DDR blob is exactly framed by the copies after it |
| SvGuidTable.Padded | raw2dump/src/WriteSVSections.cpp:22-34 | a name is its ASCII bytes followed by zero bytes up to RAW_DUMP_SECTION_HEADER_NAME_LENGTH |
| SvGuidTable.IndexFrom | raw2dump/src/WriteSVSections.cpp:609-622 | the search from an index finds the first later entry with the name, or the last entry when no later entry has it |
| SvGuidTable.GuidIndexOf | raw2dump/src/WriteSVSections.cpp:609-622 | a section name selects the first GUIDToName entry with that name, or UNKNOWN (the last entry) exactly when no entry has it |
| SvGuidTable.TagOfIndex | raw2dump/src/WriteSVSections.cpp:643-650 | the GUID given to a section is that of the entry the search selects |
| SvGuidTable.FindGuidIndex | raw2dump/src/WriteSVSections.cpp:604-622 | the loop with its foundName flag stops at the entry the search specification selects |
| SvGuidTable.NamesDistinct | raw2dump/src/WriteSVSections.cpp:22-34 | no two GUIDToName entries share a name |
| SvGuidTable.GuidIndexOfListed | raw2dump/src/WriteSVSections.cpp:22-34 | every name listed in GUIDToName selects its own entry and so its own GUID |
| SvSectionsPlan.SvCopiesAt | raw2dump/src/WriteSVSections.cpp:600-702 | the SV copies from section i on are section i's events (none unless it is SV specific) followed by the rest's from the advanced offset |
| SvSectionsPlan.SvCopiesStep | raw2dump/src/WriteSVSections.cpp:600-702 | one turn of the section loop: a section that gets through leaves the rest of the plan; one that fails ends the log short of the plan |
| SvSectionsPlan.SectionLayout | raw2dump/src/WriteSVSections.cpp:629-698 | an SV specific section's read and three writes are adjacent and its blob is exactly framed exactly when (UINT32)Size + 20 does not wrap |
| SvSectionsPlan.SvCopiesEnd | raw2dump/src/WriteSVSections.cpp:600-702 | the SV specific blobs are written one after another from the start offset |
| SvSectionsPlan.SvCopiesFraming | raw2dump/src/WriteSVSections.cpp:600-702 | all SV specific blobs are exactly framed exactly when every section's blob size fits in a UINT32 |
| SvSectionsPlan.TableLayout | raw2dump/src/WriteSVSections.cpp:533-552 | the raw dump table blob, the 120-byte packed RAW_DUMP_HEADER (with its embedded first entry) and the 64 * SectionsCount-byte section table, is written in adjacent pieces and is exactly framed when its size fits in a ULONG |
| SvSectionsPlan.ApRegLayout | raw2dump/src/WriteSVSections.cpp:557-585 | the AP_REG blob, when there is AP_REG, is written adjacently and exactly framed |
| SvSectionsPlan.AfterApRegEnd | raw2dump/src/WriteSVSections.cpp:587-710 | everything after AP_REG is written adjacently, ending the SV blobs' and non-OS data's size after the start |
| SvSectionsPlan.AfterApRegFraming | raw2dump/src/WriteSVSections.cpp:587-710 | with every SV blob size within UINT32 and the non-OS sizes matching the blob header, everything after AP_REG is exactly framed |
| SvSectionsPlan.AfterTableEnd | raw2dump/src/WriteSVSections.cpp:554-710 | everything after the raw dump table is written adjacently |
| SvSectionsPlan.AfterTableFraming | raw2dump/src/WriteSVSections.cpp:554-710 | under the same size conditions everything after the raw dump table is exactly framed |
| SvSectionsPlan.SecondaryPlanSplit | raw2dump/src/WriteSVSections.cpp:522-710 | the secondary data is the blob file header and raw dump table followed by the rest |
| SvSectionsPlan.SecondaryLayout | raw2dump/src/WriteSVSections.cpp:522-710 | the secondary data is written without gaps or overlaps from SecondaryDataOffset, ending SecondaryBytes later (the table counted at 120 + 64 * SectionsCount bytes), and its blobs are exactly framed when the table, every SV blob and the non-OS total fit their ULONG sizes |
| WriteSvSections.DumpFile.WriteFileAtOffset | raw2dump/src/WriteSVSections.cpp:38-70 | the write is logged when it fits the dump's capacity and not otherwise; success exactly when it fits, and then the offset and BytesWritten advance by Size, otherwise the offset stays |
| WriteSvSections.DumpFile.WriteBlobHeader | raw2dump/src/WriteSVSections.cpp:72-144 | writes a DUMP_BLOB_HEADER (HeaderSize 32, the tag, the ULONG data size, no padding) and advances the offset by 32 exactly when the write succeeds |
| WriteSvSections.DumpFile.WriteDumpBlobFileHeader | raw2dump/src/WriteSVSections.cpp:433-484 | writes a DUMP_BLOB_FILE_HEADER with build number 1205 and advances the offset by its size exactly when the write succeeds |
| WriteSvSections.DumpFile.ReadFromRawDump | raw2dump/src/WriteSVSections.cpp:147-192 | corrected read: success exactly when a nonzero number of bytes is asked for and all of them lie inside the raw dump; the failed read is logged with nothing else |
| WriteSvSections.DumpFile.CopyChunk | raw2dump/src/WriteSVSections.cpp:255-295 | one iteration: the read of a chunk and, only when it succeeds, its write; both offsets advance by the chunk on success |
| WriteSvSections.DumpFile.CopyDdrFromRawDumpToDumpFileByOffset | raw2dump/src/WriteSVSections.cpp:195-312 | the loop's log is the part of the copy plan that gets through; success exactly when all of it does, and then BytesCopied is BytesToCopy, never more |
| WriteSvSections.DumpFile.WriteMapBlobs | raw2dump/src/WriteSVSections.cpp:349-394 | the memory map blob header, the map and the NON_OS_DDR blob header, each only after the previous succeeded; the offset advances by two headers and the map |
| WriteSvSections.DumpFile.CopyNonOsEntry | raw2dump/src/WriteSVSections.cpp:401-422 | a MEMORY_NONOS entry is copied from its raw dump Offset at (UINT32)Size bytes; other entries are skipped |
| WriteSvSections.DumpFile.WriteNonOsCopies | raw2dump/src/WriteSVSections.cpp:400-423 | the loop over the complete map runs the non-OS copies plan, stopping at the first failure, advancing by the non-OS bytes on success |
| WriteSvSections.DumpFile.WriteNonOsDdr | raw2dump/src/WriteSVSections.cpp:315-430 | WpDmppWriteNonOSDDR's log is its plan up to the first failure, success exactly when the whole plan gets through |
| WriteSvSections.DumpFile.WriteRawDumpTable | raw2dump/src/WriteSVSections.cpp:533-552 | the raw dump table blob header, the 120-byte RAW_DUMP_HEADER and the 64 * SectionsCount-byte section table, each only after the previous succeeded |
| WriteSvSections.DumpFile.WriteApReg | raw2dump/src/WriteSVSections.cpp:557-585 | without AP_REG nothing is written; with it, its blob header then its TotalCpuContextSizeInBytes bytes |
| WriteSvSections.DumpFile.WriteSectionBlob | raw2dump/src/WriteSVSections.cpp:640-698 | the section's blob header with size (UINT32)Size + 20, its name and its data, each only after the previous succeeded |
| WriteSvSections.DumpFile.WriteSvSection | raw2dump/src/WriteSVSections.cpp:603-701 | an SV specific section is read, then written as a blob tagged with the GUID its name selects; other sections write nothing |
| WriteSvSections.DumpFile.WriteSvSections | raw2dump/src/WriteSVSections.cpp:600-702 | the loop over SectionsCount sections runs the SV copies plan up to the first failure, advancing by the SV blobs' size on success |
| WriteSvSections.DumpFile.WriteAfterApReg | raw2dump/src/WriteSVSections.cpp:587-710 | without the temporary buffer nothing more is written and the status is STATUS_NO_MEMORY; otherwise the SV sections then the non-OS DDR, success exactly when all of it gets through |
| WriteSvSections.DumpFile.WriteAfterTable | raw2dump/src/WriteSVSections.cpp:554-710 | AP_REG then the rest, stopping at the first failure |
| WriteSvSections.DumpFile.WriteSecondaryData | raw2dump/src/WriteSVSections.cpp:533-710 | the raw dump table then the rest, stopping at the first failure, success exactly when the whole plan gets through with the buffer allocated |
| WriteSvSections.DumpFile.WriteSvSpecific | raw2dump/src/WriteSVSections.cpp:487-720 | no secondary blobs: HRESULT_FROM_NT(STATUS_SUCCESS), SecondaryDataOffset 0 and nothing written; otherwise SecondaryDataOffset is the dump offset, the log is the secondary data plan up to the first failure, success exactly when all of it is written, and then the offset is SecondaryBytes further on |
| ConfigCheck.SetWpDmpFlag | OffDmpSvc/lib/configcheck.cpp:44-104 | the UEFI flag is written with setVal exactly when its read failed or it holds another value; the status is the write's when there is one, else the successful read's |
| ConfigCheck.DetermineOfflineDumpVersion | OffDmpSvc/lib/configcheck.cpp:281-371 | S_OK exactly when the query succeeds, the version is 1 or 2 and the dedicated-partition bit is set; a failed query gives HRESULT_FROM_NT of its status, a bad version E_NOTIMPL, a missing bit E_UNEXPECTED |
| ConfigCheck.CheckOfflineCrashdumpEnabled | OffDmpSvc/lib/configcheck.cpp:373-504 | enabled exactly when DisablePrebootCrashDump is 0, EnableOfflineDumps nonzero (both 0 when unreadable) and CrashDumpEnabled FULL or SUMMARY; an unopened key gives E_FAIL, an unreadable CrashDumpEnabled E_NOTIMPL, S_OK comes only with enabled, and a registry that does not enable dumps gives E_FAIL |
| ConfigCheck.GetOfflineMemoryDumpUseCapability | OffDmpSvc/lib/configcheck.cpp:573-625 | the capability is stored truncated to UINT32 only when the variable read succeeds; the result is HRESULT_FROM_NT of the read |
| ConfigCheck.IsSBLDumpExpected | OffDmpSvc/lib/configcheck.cpp:506-569 | an AbnormalResetOccurred of 0 gives S_OK with the output untouched and the capability never read; otherwise S_OK (and TRUE) exactly when the capability read succeeds with a nonzero value, else E_UNEXPECTED; each checklist bit is set exactly when its step passed, so the bits are nested |
| ConfigCheck.IsOffDumpReady | OffDmpSvc/lib/configcheck.cpp:107-207 | a null context gives S_OK with nothing done; a failed privilege ends the check; otherwise the UEFI flag is disabled, and S_OK comes exactly when the version, enabled and expected checks all pass in that order; a failed version check leaves the progress bits as they were, and after it IsDumpEnabled and IsDumpExpected mirror the two later checks |
| DeviceIoDefs.CeilDiv | common/include/Device_IO.h:224 | the block count covers the bytes with less than one block to spare, and is 0 exactly when there are no bytes |
| DeviceIoDefs.FloorDiv | common/lib/Device_IO.cpp:1607 | the whole blocks in a byte count: their bytes do not exceed it and fall short of it by less than one block |
| DeviceIoDefs.ReadyChecksOnlyRecordError | common/lib/Device_IO.cpp:343-393 | a readiness check that passes leaves the last error as it was; one that fails records INVALID_HANDLE, INVALID_DRIVE_LAYOUT or PARTITION_NOT_SET, and IsIoReady fails with IsDeviceReady's code when the device itself is not ready |
| DeviceIoDefs.InitialStateNotReady | common/lib/Device_IO.cpp:272-299 | right after Init an object is neither device- nor I/O-ready (INVALID_HANDLE), reports partition size 0, number INVALID_INDEX and style RAW, and has no valid cache and nothing remaining in it |
| DeviceIoDefs.KeepsGeometryReady | common/lib/Device_IO.cpp:343-393 | readiness and the partition size depend only on fields that reads and seeks leave alone |
| DeviceIoDefs.NoPartitionGetters | common/include/Device_IO.h:137-146 | with no partition selected the size getter gives 0 and the number getter INVALID_INDEX; with no drive layout the style is RAW |
| DeviceIoDefs.PartitionRemainingReadBytes | common/include/Device_IO.h:229 | the bytes from IOCurPos to the partition's end when I/O is ready and the position is inside; 0 when I/O is not ready or the partition is empty |
| DeviceIoDefs.CacheRemaining | common/include/Device_IO.h:205 | the bytes of the cache past CacheCurOffset when there is a cache; 0 when the cache size is 0 |
| DeviceIoDefs.CacheOffset | common/include/Device_IO.h:206 | the distance of IOCurPos past the first cached block's byte offset, whenever the position is not before it |
| DeviceIoDefs.CacheValidBounds | common/lib/Device_IO.cpp:560-597 | a valid cache has bytes left past its offset, exactly its size minus the offset, and its window holds the block IOCurPos lies in |
| DeviceIoDefs.ClassifyName | common/lib/Device_IO.cpp:991-1023 | a name is a disk (RAW_DEVICE_TYPE) exactly when it starts with \\.\PhysicalDrive, compared without regard to case; any other name is a plain file |
| DeviceIoDefs.DecimalString | common/lib/Device_IO.cpp:1032-1064 | _itow in base 10 gives a non-empty string of decimal digits with no leading zero |
| DeviceIoDefs.ParseDecimalString | common/lib/Device_IO.cpp:1032-1064 | the digits _itow writes read back as the number |
| DeviceIoDefs.DecimalLength | common/include/Device_IO.h:32-33 | an ID below MAX_DEV_ID_VALUE (1000) takes at most the three digits MAX_DEV_ID_STRING_SIZE leaves room for |
| DeviceIoDefs.PhysicalDriveName | common/lib/Device_IO.cpp:1032-1064 | the name made for a device ID is the physical-drive prefix followed by the ID's decimal digits |
| DeviceIoDefs.PhysicalDriveNameId | common/lib/Device_IO.cpp:1032-1064 | the ID can be read back from the name made for it |
| DeviceIoDefs.PhysicalDriveNameIsRaw | common/lib/Device_IO.cpp:991-1064 | naming a device by ID and naming it by the name made for that ID both make it a disk |
| DeviceIoDefs.ClassifyExamples | common/lib/Device_IO.cpp:991-1023 | the prefix matches in upper and lower case; a path and a name cut short inside the prefix are plain files |
| DeviceIoDefs.RequestedCacheBlocks | common/lib/Device_IO.cpp:424-429 | the cache block count starts at the request (the default 0x2000 for 0), cut to the partition's block count when that fits in a ULONG; a larger partition leaves the request as it is |
| DeviceIoDefs.UlongCacheBlocks | common/lib/Device_IO.cpp:434-436 | the block count the size guard leaves: the request when its bytes fit in MAX_ULONG, otherwise the most blocks that fit |
| DeviceIoDefs.CacheSizeAsWrittenWraps | common/lib/Device_IO.cpp:434-436 | as written the product is formed in 32 bits, so the guard never fires: the cache size is BlockSize × count modulo 2^32, and a 1 MiB block with the default count gives a size of 0 |
| DeviceIoDefs.UlongCacheFits | common/lib/Device_IO.cpp:434-436 | with the guard made on the true product the cache size is exactly its blocks' bytes; 1 MiB blocks with the default count keep 0xFFF blocks |
| DeviceIoDefs.MaxIoSize | common/lib/Device_IO.cpp:1805 | the largest chunk SafeIO moves: MAX_DWORD for byte I/O, otherwise the largest whole number of blocks that fits in MAX_DWORD |
| DeviceIoDefs.HResultFromWin32 | common/lib/Device_IO.cpp:1827 | HRESULT_FROM_WIN32 succeeds exactly for error 0 |
| DeviceIoDefs.Overwrite | common/lib/Device_IO.cpp:1821 | a write replaces exactly the bytes it covers and keeps the store's length and every other byte |
| DeviceIoDefs.SafeReadAsWritten | common/lib/Device_IO.cpp:1809-1836 | the read loop as written, every chunk handed the start of the buffer, keeps the buffer's length |
| DeviceIoDefs.SafeReadAsWrittenOverwritesStart | common/lib/Device_IO.cpp:1818 | as written a read of MAX_DWORD + 1 bytes leaves byte MAX_DWORD of the file at the start of the buffer, not byte 0 |
| DeviceIoDefs.SeekTargetExact | common/lib/Device_IO.cpp:1457-1476 | each of the three move methods (from the end, forward from the pointer, from the beginning) lands on the requested position, except a position past IOSize in a file of another size, which lands that far past the file's end |
| DeviceIoDefs.FileSeek | common/lib/Device_IO.cpp:1442-1503 | SetFileOffset changes only IOCurPos, the file pointer and the last error; it succeeds only with S_OK, lands on the request or the move methods' target, and a failure records SET_POSITION_FAILED with nothing else changed |
| DeviceIoDefs.FileSeekIgnoresLastError | common/lib/Device_IO.cpp:1442-1503 | the last error held before SetFileOffset does not affect its outcome |
| DeviceIoDefs.FileSeekReaches | common/lib/Device_IO.cpp:1442-1503 | on a ready file of IOSize bytes every LARGE_INTEGER position is reached with S_OK; IOCurPos follows and EOF is noted exactly at or past the end, and a seek to where the pointer already is leaves IOCurPos alone |
| DeviceIoDefs.MoveTargetBelowLimit | common/lib/Device_IO.cpp:1676-1685 | the offset MoveToDeviceBlock seeks to is a LARGE_INTEGER whenever the partition ends within that range |
| DeviceIoDefs.MoveTargetKeepsCacheInPartition | common/lib/Device_IO.cpp:1676-1685 | for a block inside a partition of whole blocks, the seek target lies inside the partition and a cache-sized read from it ends at or before the partition's end; a target that is clamped ends exactly there |
| DeviceIoDefs.WholeBlocks | common/lib/Device_IO.cpp:2017 | the whole blocks of a byte count: no more than it and short of it by less than one block |
| DeviceIoDefs.BlockReadSize | common/lib/Device_IO.cpp:1891-1896 | the size handed to SafeIO is at most the request and at most the bytes of the blocks left in the partition; a size below the request is exactly those bytes |
| DeviceIoDefs.FileReadDoneAtEnd | common/lib/Device_IO.cpp:2116-2136 | a file read reports EOF exactly when the pointer was at or past the file's end, IO_OK exactly when the whole request fitted, and a partial read leaves the pointer at the end |
| DeviceIoDefs.BlockReadDonePartial | common/lib/Device_IO.cpp:2074-2077 | a block read is partial exactly when the request reaches past the partition's end, and then it leaves IOCurPos at that end |
| DeviceIoDefs.Phase3Copy | common/lib/Device_IO.cpp:2050 | phase 3 copies no more than the request's rest and no more than the partition has left |
| DeviceIoDefs.Phase3CopyInsideCache | common/lib/Device_IO.cpp:2048-2064 | with the refresh, a copy phase 3 makes from the cache stays inside it, and every copy that would run past the cache's end gets the refresh |
| DeviceIoDefs.EofPositionAsWrittenInside | common/lib/Device_IO.cpp:1527-1530 | as written a move to EOF on a 64 KiB partition of 4 KiB blocks stores position 16, which is inside the partition, with 0x1_0000 − 16 bytes still to read; the partition size has none |
| DeviceIoDefs.Phase3CopyAsWrittenOverruns | common/lib/Device_IO.cpp:2048-2070 | as written a 32 MiB read after a 16 MiB one, through a 32 MiB cache, copies up to 16 MiB past the cache's end; the corrected phase 3 re-reads the cache there |
| DeviceIo.Device.constructor | common/lib/Device_IO.cpp:272-299 | a new object over a store has the fields Init gives it: no handle, no type, no partition, the default block size and cache block count, and no cache |
| DeviceIo.Device.SetIOBlockCount | common/include/Device_IO.h:224 | IOBlockCount becomes the number of blocks that cover IOSize |
| DeviceIo.Device.SetIOGeometry | common/lib/Device_IO.cpp:307-315 | the block size is the sector size, IOSize the cylinders times the DWORD product of tracks, sectors and bytes per sector (a ULONGLONG product), and the block count covers IOSize |
| DeviceIo.Device.SetPartitionGeometry | common/lib/Device_IO.cpp:323-329 | IOCurPos is left at the partition's length and the partition block count covers that length |
| DeviceIo.Device.SetDeviceName | common/lib/Device_IO.cpp:991-1023 | an open device keeps its name, ID and type (SET_NAME_ON_OPENED_DEVICE); otherwise the ID is cleared, an empty name is refused with INVALID_DEVICE_NAME, and any other is kept with the type ClassifyName gives |
| DeviceIo.Device.SetDeviceID | common/lib/Device_IO.cpp:1032-1064 | an open device keeps its name, ID and type; otherwise an ID below 1000 becomes physical drive ID as a disk, and a larger one clears the name and ID with INVALID_DEVICE_ID |
| DeviceIo.Device.IsDeviceReady | common/lib/Device_IO.cpp:343-369 | ready exactly when the handle is open and a disk has a drive layout; the last error records why not |
| DeviceIo.Device.IsIoReady | common/lib/Device_IO.cpp:379-393 | ready exactly when the device is ready and a disk has a partition selected; the last error records why not |
| DeviceIo.Device.GetCurrentPartitionSize | common/include/Device_IO.h:146 | the selected partition's length once I/O is ready, otherwise 0, with IsIoReady's error recorded |
| DeviceIo.Device.FreeCache | common/lib/Device_IO.cpp:512-525 | no cache, no cached block, a block count and size of 0, and IO_OK |
| DeviceIo.Device.AllocateCache | common/lib/Device_IO.cpp:413-457 | no blocks is DEVICE_NO_BLOCKS and not ready keeps the old cache; otherwise the old cache is dropped and the result is the largest zeroed cache of at most the clamped request that the heap can hold, with its size exactly its blocks' bytes; a cache is handed back exactly when CacheAllocates holds, and otherwise NO_MEMORY leaves none |
| DeviceIo.Device.AllocateLargest | common/lib/Device_IO.cpp:431-453 | the do-while loop ends with the largest count, no more than asked for, whose bytes the heap holds, zeroed; it fails exactly when the heap cannot hold one block (with blocks asked for), leaving no cache and NO_MEMORY |
| DeviceIo.Device.UpdateCache | common/lib/Device_IO.cpp:470-504 | a null buffer, a bad size, an invalid cache and a buffer larger than the cache's rest fail with their codes and change nothing; otherwise the buffer's bytes land at CacheCurOffset, the rest of the cache is kept, and the offset and IOCurPos advance by the size |
| DeviceIo.Device.AdvanceAfterWrite | common/lib/Device_IO.cpp:497-500 | the cache offset moves by the bytes written, IOCurPos by their ULONGLONG sum, and the result is IO_OK |
| DeviceIo.Device.CopyToCache | common/lib/Device_IO.cpp:490 | the copied bytes land at CacheCurOffset and every other byte of the cache is kept |
| DeviceIo.Device.CopyFromCache | common/lib/Device_IO.cpp:1984 | the copy succeeds exactly when the bytes lie in the cache; then the buffer holds them at the destination with its other bytes kept, and otherwise the buffer is unchanged |
| DeviceIo.Device.IsPositionValid | common/lib/Device_IO.cpp:533-548 | valid exactly when I/O is ready and the position is before the partition's end; a position at or past the end records EOF, a valid one leaves the last error alone |
| DeviceIo.Device.GetIoPos | common/lib/Device_IO.cpp:1119-1146 | on a ready device the handle's file pointer with S_OK and IO_OK; otherwise E_FAIL, 0 and IsDeviceReady's error |
| DeviceIo.Device.GetPos | common/lib/Device_IO.cpp:1072-1114 | IOCurPos with S_OK exactly when a disk is ready for I/O or a file is ready; any other type is UNSUPPORTED_DEVICE_TYPE, and a failure returns 0 and E_FAIL |
| DeviceIo.Device.SetFileOffset | common/lib/Device_IO.cpp:1442-1503 | the result and new state are FileSeek's |
| DeviceIo.Device.SeekFrom | common/lib/Device_IO.cpp:1451-1503 | once GetIoPos has reported the pointer, the result and new state are FileSeek's |
| DeviceIo.Device.SetIoPosition | common/lib/Device_IO.cpp:1514-1553 | a device that is not ready is refused with nothing moved; on a disk the move succeeds exactly for a position inside the partition, a position at or past the end is EOF with IOCurPos at the partition's end, and no partition is PARTITION_NOT_SET; a plain file seeks as FileSeek; any other type is unsupported |
| DeviceIo.Device.SetReadyPosition | common/lib/Device_IO.cpp:1521-1548 | SetIoPosition's outcome by device type, on a ready device |
| DeviceIo.Device.SetBlockPosition | common/lib/Device_IO.cpp:1523-1539 | on a ready disk the position is set exactly when it lies inside the partition; at or past the end it is EOF with IOCurPos at the partition's end |
| DeviceIo.Device.MoveToDeviceBlock | common/lib/Device_IO.cpp:1653-1728 | a block past the partition's end is INVALID_POSITION with nothing moved; the end block is EOF with IOCurBlock at the block count and IOCurPos at IOSize; inside the partition on a ready device the handle is moved to MoveTarget (unless already there) and IOCurBlock becomes the block it lands on, IOCurPos unchanged; a negative target is SET_POSITION_FAILED |
| DeviceIo.Device.MoveInsidePartition | common/lib/Device_IO.cpp:1687-1721 | the handle moves to the target unless already there, and IOCurBlock is the partition block it lands on; a target before the file's start is SET_POSITION_FAILED |
| DeviceIo.Device.OsReadFile | common/lib/Device_IO.cpp:1818 | ReadFile delivers up to the requested bytes from the file pointer, fewer at the store's end, moves the pointer by them and leaves the rest of the buffer alone |
| DeviceIo.Device.IoChunk | common/lib/Device_IO.cpp:1814-1833 | one pass moves what the store has left, up to the chunk, and extends what the earlier passes moved |
| DeviceIo.Device.ReadChunk | common/lib/Device_IO.cpp:1817-1818 | one read pass adds the store's next bytes to those already read into the buffer |
| DeviceIo.Device.WriteChunk | common/lib/Device_IO.cpp:1820-1821 | one write pass adds the buffer's next bytes to those already written over the store |
| DeviceIo.Device.OsWriteFile | common/lib/Device_IO.cpp:1821 | WriteFile writes up to the requested bytes over the store at the file pointer, fewer at its end, and moves the pointer by them |
| DeviceIo.Device.SafeIo | common/lib/Device_IO.cpp:1777-1846 | bad arguments give HRESULT_FROM_WIN32(ERROR_INVALID_PARAMETER) with nothing moved; otherwise the bytes the store has from the pointer, up to the request, are moved: read into the buffer at the request's start in order, or written over the store; the count is that amount and S_OK comes only when it is the whole (nonzero) request |
| DeviceIo.Device.ProcessChunks | common/lib/Device_IO.cpp:1809-1840 | the do-while loop moves the bytes the store has, up to the request, in order, and reports S_OK only for the whole nonzero request |
| DeviceIo.Device.ReadBlocksFromDevice | common/lib/Device_IO.cpp:1866-1917 | null, a size that is zero or not whole blocks, and a block at or past the partition's end fail with their codes and read nothing; otherwise SafeIO reads the request cut to the partition's blocks into the buffer, a SafeIO failure is READ_FILE and a short read READ_PARTIAL |
| DeviceIo.Device.CacheRawBlocks | common/lib/Device_IO.cpp:1589-1634 | a failed allocation is CACHE_READ, a position at or past the partition's end is EOF; a valid cache only has its offset recomputed; otherwise the cache is re-read so that it holds the device bytes just before the handle's pointer, with IOCurBlock past it; success leaves IOCurPos inside the partition |
| DeviceIo.Device.AllocateAndCache | common/lib/Device_IO.cpp:1594-1627 | without a cache: CACHE_READ when the default one cannot be allocated, otherwise the cache is filled at the position as CacheRawBlocks does |
| DeviceIo.Device.AllocateDefaultCache | common/lib/Device_IO.cpp:1593-1598 | the default cache is present exactly when CacheAllocates holds for a request of 0; otherwise CACHE_READ |
| DeviceIo.Device.CacheAtPosition | common/lib/Device_IO.cpp:1599-1631 | with a cache present: EOF at or past the partition's end, a valid cache keeps its blocks and recomputes the offset, any other is re-read at the position's block |
| DeviceIo.Device.RefreshCache | common/lib/Device_IO.cpp:1604-1627 | a refresh that succeeds leaves the cache holding the device bytes just before the pointer, IOCurBlock past it and the offset following IOCurPos |
| DeviceIo.Device.FillCache | common/lib/Device_IO.cpp:1613-1623 | only a read of the whole cache succeeds, and it makes the cache start at IOCurBlock and hold the bytes read |
| DeviceIo.Device.AdoptCache | common/lib/Device_IO.cpp:1616-1618 | the cache starts at IOCurBlock, IOCurBlock moves past it, and the offset follows IOCurPos |
| DeviceIo.Device.ReadFromBlockDevice | common/lib/Device_IO.cpp:1942-2084 | null, a zero size and a position at or past the partition's end fail with their codes and read nothing; a success is S_OK with IOCurPos advanced by what was read, which is the request cut to the partition's end, READ_PARTIAL exactly when that is short |
| DeviceIo.Device.ReadInPhases | common/lib/Device_IO.cpp:1970-2072 | the three phases together deliver the cut request, advancing IOCurPos by what they read |
| DeviceIo.Device.ReadPhases2And3 | common/lib/Device_IO.cpp:2014-2072 | phases 2 and 3 deliver what phase 1 left, advancing IOCurPos by it |
| DeviceIo.Device.ReadPhase1 | common/lib/Device_IO.cpp:1978-1998 | phase 1 copies no more than the request and advances IOCurPos by what it copied |
| DeviceIo.Device.ReadPhase2 | common/lib/Device_IO.cpp:2014-2042 | phase 2 delivers no more than was asked for, advancing IOCurPos by it |
| DeviceIo.Device.ReadWholeBlocks | common/lib/Device_IO.cpp:2025-2037 | a successful phase 2 read delivers all its whole blocks and advances IOCurPos by them |
| DeviceIo.Device.ReadPhase3 | common/lib/Device_IO.cpp:2048-2072 | phase 3 copies the rest of the request, advancing IOCurPos by it |
| DeviceIo.Device.CacheForCopy | common/lib/Device_IO.cpp:2052-2059 | a failure is EOF or CACHE_READ; success leaves a cache and IOCurPos alone |
| DeviceIo.Device.RecacheAtPosition | common/lib/Device_IO.cpp:1604-1627 | dropping the cached block makes CacheRawBlocks re-read; success leaves a cache and IOCurPos alone |
| DeviceIo.Device.CopyCached | common/lib/Device_IO.cpp:1984-1995 | bytes that lie in the cache are copied into the buffer and the offset and IOCurPos advance by them; otherwise READ_COPY with the thread's error and nothing advanced |
| DeviceIo.Device.ReadFromFile | common/lib/Device_IO.cpp:2095-2144 | null and a zero size fail with nothing read; otherwise the file's bytes from the pointer, up to the request, land in the buffer and the pointer moves by them; a SafeIO failure is READ_FILE, none read EOF, fewer than asked READ_PARTIAL |
| DeviceIo.Device.Read | common/lib/Device_IO.cpp:2157-2203 | null, zero size and a device not ready for I/O fail with their codes and nothing read; a ready disk reads as ReadFromBlockDevice and a file as ReadFromFile (ReadDone), with the file's bytes landing in the buffer; any other type is UNSUPPORTED_DEVICE_TYPE |
| DeviceIo.Device.ReadByType | common/lib/Device_IO.cpp:2179-2193 | the dispatch by device type gives ReadDone |
| DeviceIo.Device.ReadAtOffset | common/lib/Device_IO.cpp:2216-2232 | a device that is not ready fails; a disk read that succeeds started inside the partition and ends at the request's end or the partition's; with READ_EXACT a success has delivered the whole request (for a file, the file's bytes before the pointer) |
| DeviceIo.Device.ReadChecked | common/lib/Device_IO.cpp:2221-2230 | after the position is set, a disk read that succeeds ends at the request's end or the partition's, and with READ_EXACT a success has delivered the whole request |
| DeviceIo.OverwriteAppend | common/lib/Device_IO.cpp:1821-1833 | two writes one after the other are one write of both |
| DeviceIo.FitBlocks | common/lib/Device_IO.cpp:431-453 | the count the do-while loop ends with is the largest, no more than asked for, whose bytes the heap holds; it is 0 with blocks asked for exactly when not even one block fits |
| DeviceIo.ReadJoin | common/lib/Device_IO.cpp:1832-1833 | a chunk read after the bytes already read extends them |
| DeviceIo.WriteJoin | common/lib/Device_IO.cpp:1832-1833 | a chunk written after the bytes already written extends them |
| DeviceSpecific.ImageReadsBack | common/include/Device_Specific.h:37-151 | each field of a struct laid out in one of the three layouts (signed and packed, legacy packed, legacy naturally aligned) reads back from its offset in the buffer as that field |
| DeviceSpecific.LatestReadsBack | common/include/Device_Specific.h:142-151 | DEVICE_SPECIFIC_INFO: Signature, Version and PayloadSize at 0, 8 and 12, the packed template from byte 16, each reading back as written |
| DeviceSpecific.PackedReadsBack | common/include/Device_Specific.h:125-130 | the legacy packed template: every field reads back from its pack(1) offset |
| DeviceSpecific.UnpackedReadsBack | common/include/Device_Specific.h:121-122 | the legacy unpacked template: every field reads back from its naturally aligned offset |
| DeviceSpecific.DecodeRecord | common/lib/Device_Specific.cpp:66-116 | an undetected layout is E_FAIL with the caller's struct untouched; a detected one always copies Type, the instance ID, the bugcheck code and its four parameters; Intel types copy only CpuContextAddress, ARM, ARM64 and QCOM32 also VA, PA and Size; any other type is E_FAIL with only the base fields written; Signature, Version and PayloadSize are never written |
| DeviceSpecific.DecodeHeldTemplate | common/lib/Device_Specific.cpp:84-114 | a buffer whose detected layout holds a struct of a known type decodes to that struct's fields, merged into the caller's struct as the type selects |
| DeviceSpecific.PackedLegacyReadsBack | common/lib/Device_Specific.cpp:71-74 | an unsigned packed record with bugcheck code 0x14C is detected as packed and reads back its fields |
| DeviceSpecific.UnpackedLegacyReadsBack | common/lib/Device_Specific.cpp:75-78 | an unsigned unpacked record with bugcheck code 0x14C and a Size other than 0x14C is detected as unpacked and reads back its fields |
| DeviceSpecific.UnpackedSizeLooksPacked | common/lib/Device_Specific.cpp:71-78 | an unsigned unpacked record whose Size is 0x14C is taken for a packed one, because the packed bugcheck code sits where the unpacked layout keeps Size |
| DeviceSpecific.StampedImage | common/lib/Device_Specific.cpp:162-167 | overwriting the first 16 bytes of the struct's image with the signature, the version and PAYLOAD_SIZE gives the image of the stamped struct |
| DeviceSpecific.WriteDeviceSpecificInfo | common/lib/Device_Specific.cpp:151-180 | the 1024 bytes handed to Write are the stamped struct's image, handed over exactly when SetPos succeeds; a failed SetPos is returned as is; the byte-count test compares against the sizeof of an array of 1024 pointers, so for any count up to 1024 the result is Write's own HRESULT |
| DeviceSpecific.WrittenRecordReadsBack | common/unittest/FunctionalTests.cpp:2056-2116 | round trip: the record a write hands over is detected as the signed layout and decodes to the written struct's fields for any type the reader knows |
| DeviceSpecific.RereadRestores | common/unittest/FunctionalTests.cpp:2085-2116 | a read gives back exactly the written struct when the caller's struct already agrees with it on the signed header and, for an Intel type, on VA, PA and Size |
| DeviceSpecific.ReadDeviceSpecificInfo | common/lib/Device_Specific.cpp:45-121 | with the device's last error other than IO_OK, or a failed SetPos, a failed Read or fewer than 1024 bytes, the result is E_FAIL with the caller's struct untouched; otherwise it is the decoding of the 1024 bytes read, which on a plain file are the file's bytes at the new pointer less 1024, and the offset when it lies before IOSize |
| DeviceSpecific.ReadRecordAt | common/lib/Device_Specific.cpp:58-62 | SetPos then a Read into a zeroed 1024-byte buffer; when all bytes came in, the buffer holds a plain file's 1024 bytes ending at its new pointer, which is offset + 1024 for an offset before IOSize, and a block device's position is offset + 1024 |
| DeviceSpecific.SeekRecord | common/lib/Device_Specific.cpp:59 | a successful SetPos leaves a block device's IOCurPos, or a plain file's pointer for an offset before IOSize, at the offset |
| DeviceSpecific.ReadWhole | common/lib/Device_Specific.cpp:60-61 | a Read of the whole buffer that succeeds with 1024 bytes has, on a plain file, copied the 1024 bytes at the file pointer and advanced the pointer by them |
| ApReg.CheckApRegHeader | raw2dump/src/apreg.cpp:73-101 | STATUS_SUCCESS exactly when the magic is AP_REG_STRUCTURE_MAGIC_VALUE, the version is 2, 3 or 4 and CPU_Count is 1 to 4; any other header is STATUS_BAD_DATA |
| ApReg.ApRegDataSize | raw2dump/src/apreg.cpp:107-108 | for at most four CPUs the UINT32 size is exactly 160 + 164 per CPU, at most 816 bytes |
| ApReg.GetAPRegLegacy | raw2dump/src/apreg.cpp:47-142 | a zero address is STATUS_UNSUCCESSFUL, a failed header read returns its status, an invalid header STATUS_BAD_DATA, a failed allocation STATUS_NO_MEMORY, otherwise the status of the read of the whole block, which is kept; success implies a valid header and sets only TotalCpuContextSizeInBytes to the block size; any failure sets only DumpHeaderStatus to DHS_NO_SVINFO |
| ApReg.ModeOf | raw2dump/src/apreg.cpp:183-219 | the mode is usr or fiq exactly when the low five bits of the CPSR say so, and none exactly when they name none of the six banked modes |
| ApReg.TzbspContextToNtContext | raw2dump/src/apreg.cpp:146-228 | ContextFlags INTEGER or CONTROL, Pc = Mon_Lr, Cpsr = Mon_Spsr; R0-R7 from the user bank, R8-R12 from the fiq bank exactly in fiq mode; Sp and Lr from the bank of the mode, zero for an unrecognised mode, which alone is STATUS_UNSUCCESSFUL |
| ApReg.TzbspModeBitsDecide | raw2dump/src/apreg.cpp:183-185 | two secure contexts whose Mon_Spsr agree in the mode bits convert to the same status and the same registers, except Cpsr |
| ApReg64.ConvertApregContextToArm64Context | raw2dump/src/apreg64.cpp:679-725 | always S_OK; 29 X registers; ContextFlags, Fpcr and Fpsr stay zero; Cpsr is spsr_el3 truncated to 32 bits |
| ApReg64.Arm64RegistersFromSdi | test/offdumptool/exe/apreg64.cpp:729-775 | every register of the converted context holds the SDI register it is saved from: X0-X28 from x0-x28, Fp and Lr from x29 and x30, Sp from sp_el3, Pc from pc |
| ApReg64.Arm64ConversionInjective | raw2dump/src/apreg64.cpp:679-725 | two SDI dumps convert to the same context exactly when they agree on x0-x30, pc, sp_el3 and the low half of spsr_el3: nothing else is lost |
| ApReg64.ConvertApregContextToArmContext | raw2dump/src/apreg64.cpp:729-816 | always S_OK, even for an unrecognised mode; each register cast to a ULONG; R8-R12 from the fiq bank exactly in fiq mode; Sp and Lr from the bank the cpsr mode selects, zero for an unrecognised mode |
| ApReg64.ArmConversionsAgree | raw2dump/src/apreg64.cpp:729-816 | for the same registers the SDI conversion builds the same context as the legacy TZBSP conversion of raw2dump/src/apreg.cpp, and the legacy one succeeds exactly when the mode is recognised |
| ApReg64.FirstOcimem | raw2dump/src/apreg64.cpp:117-127 | the index found is the first section whose name compares equal to OCIMEM.BIN; none is found exactly when no section among the first SectionsCount has that name |
| ApReg64.FindOcimemSection | raw2dump/src/apreg64.cpp:117-127 | the search loop stops at FirstOcimem's index, and at SectionsCount exactly when there is none |
| ApReg64.OcimemApRegOffset | raw2dump/src/apreg64.cpp:129-136 | the AP_REG address is read at the OCIMEM section's offset + 0x10, + 0x7F010 with a shared IMEM |
| ApReg64.LowBytesReplaced | raw2dump/src/apreg64.cpp:140 | a four-byte read into APRegAddress.QuadPart replaces its low 32 bits with the bytes read and keeps the high 32 |
| ApReg64.MissingOcimemReadsPastTable | raw2dump/src/apreg64.cpp:117-136 | without an OCIMEM section the loop leaves the index at SectionsCount, one past the table, and the offset is taken from that entry |
| ApReg64.GetApreg64AddrFromOcimem | raw2dump/src/apreg64.cpp:80-153 | with the missing section handled: no read without an OCIMEM section; S_OK exactly when the section exists, SetPos and Read succeed and a byte was read, E_FAIL otherwise; the address changes exactly when the positioning and the read succeed |
| ApReg64.GetApreg64AddrReadExact | test/offdumptool/exe/apreg64.cpp:86-152 | the same search and offset; a missing section is E_FAIL with the address unchanged; a failed READ_EXACT returns its HRESULT; on success the low half of the address becomes the four bytes read |
| ApReg64Walk.AddFrameLocal | raw2dump/src/apreg64.cpp:288-303 | linking through prevContext adds one node; it fails (the write through a null prevContext) exactly in raw2dump, when nodes are already counted and prevContext is null |
| ApReg64Walk.FrameLocalAddsOne | test/offdumptool/exe/apreg64.cpp:297-316 | the linking adds one node, counts it in numProcressors modulo 2^32 and keeps every earlier node's SDI dump, including when the offline tool skips a null prevContext |
| ApReg64Walk.AtEndAddsOne | raw2dump/src/apreg64.cpp:288-303 | the corrected linking, after listEnd: one counted node holding the SDI dump read, the earlier dumps kept, and a list chained from head to end stays chained |
| ApReg64Walk.AddCpuNode | raw2dump/src/apreg64.cpp:281-303 | a CPU-context entry adds exactly one node with the new prevContext among the nodes; linking at the end never fails and keeps prevContext |
| ApReg64Walk.AddCpuNodeAddsOne | raw2dump/src/apreg64.cpp:281-303 | the added node is counted and the earlier SDI dumps are kept; linking at the end keeps the list chained |
| ApReg64Walk.Walk | raw2dump/src/apreg64.cpp:199-318 | E_FAIL exactly when the table header cannot be read or carries a version the tool does not accept, with the list unchanged; any other HRESULT is S_OK; the list never loses nodes |
| ApReg64Walk.WalkEntries | raw2dump/src/apreg64.cpp:266-310 | the loop finishes with S_OK or stops on undefined behaviour, never with another HRESULT; the list never loses nodes |
| ApReg64Walk.WalkGrows | raw2dump/src/apreg64.cpp:199-318 | a walk only adds nodes, keeps numProcressors the node count modulo 2^32 and keeps the SDI dumps already listed; linking at the end keeps the list chained |
| ApReg64Walk.EntriesGrow | raw2dump/src/apreg64.cpp:266-310 | the same for the loop from any entry, through nested tables |
| ApReg64Walk.FlatTableInOrder | raw2dump/src/apreg64.cpp:266-304 | a table without nested tables gives S_OK and the SDI dumps of its CPU-context entries in entry order: numProcressors is their number, the head is the first, each node leads to the next, a lone node leads to itself, and otherwise the last keeps the Flink it was allocated with |
| ApReg64Walk.FlatEntriesInOrder | raw2dump/src/apreg64.cpp:266-304 | the same for the loop from any entry of such a table |
| ApReg64Walk.NestedTableFaultsAsWritten | raw2dump/src/apreg64.cpp:272-296 | a CPU-context entry followed by a nested table holding another makes raw2dump write through a null prevContext |
| ApReg64Walk.NestedTableOrphansNodeAsWritten | test/offdumptool/exe/apreg64.cpp:283-316 | the same tables give the offline dump tool S_OK with numProcressors 2, but the head leads back to itself and the second node holds no SDI dump |
| ApReg64Walk.NestedTableChainsAtEnd | raw2dump/src/apreg64.cpp:272-303 | linking at listEnd, the same tables give S_OK and exactly the two nodes, counted, in order, chained head to end, each with its own SDI dump |
| ApReg64Walk.ParseDumpData | raw2dump/src/apreg64.cpp:320-351 | the SDI dump is the one read at the address held in the DATA entry's descriptor |
| ApReg64Walk.CpuContextList.constructor | raw2dump/src/apreg64.cpp:113-115 | the global list starts empty: null head and end, no processors |
| ApReg64Walk.CpuContextList.LinkFrameLocal | raw2dump/src/apreg64.cpp:288-303 | the in-place linking leaves the list AddFrameLocal gives, and on a null write leaves it unchanged |
| ApReg64Walk.CpuContextList.LinkAtEnd | raw2dump/src/apreg64.cpp:288-303 | the corrected in-place linking leaves the list AddAtEnd gives |
| ApReg64Walk.CpuContextList.AddNode | raw2dump/src/apreg64.cpp:281-303 | reads the SDI dump and links it, leaving the list and prevContext AddCpuNode gives |
| ApReg64Walk.CpuContextList.ParseDumpTable | test/offdumptool/exe/apreg64.cpp:204-328 | parseDumpTable of either tool returns the outcome Walk gives and leaves the global list as Walk does |
| ApReg64Walk.CpuContextList.ParseEntries | raw2dump/src/apreg64.cpp:266-310 | the loop over the entries leaves the outcome and list WalkEntries gives from the first entry and a null prevContext |
| ApReg64Walk.CpuContextList.ParseEntry | raw2dump/src/apreg64.cpp:269-307 | one turn of the loop: either the walk stops there with WalkEntries' outcome, or it goes on from the next entry with the same result |
| ApReg64Walk.CpuContextList.ParseTableEntry | raw2dump/src/apreg64.cpp:272-278 | a TABLE entry walks the nested table and goes on whatever HRESULT it gives, stopping only on undefined behaviour |
| QcomSv.TableGuids | OffDmpSvc/qcom/qcom32.cpp:25-38 | PMIC_PON_GUID and RST_STAT_GUID are the GUIDs of the PMIC_PON.BIN and RST_STAT.BIN entries of GUIDToName and of no other entry |
| QcomSv.PmicPonGuidIffName | OffDmpSvc/qcom/qcom32.cpp:156-176 | a section name selects an entry whose GUID is PMIC_PON_GUID exactly when the name is PMIC_PON.BIN |
| QcomSv.RstStatGuidIffName | OffDmpSvc/qcom/qcom32.cpp:156-188 | a section name selects an entry whose GUID is RST_STAT_GUID exactly when the name is RST_STAT.BIN |
| QcomSv.CopySectionByName | OffDmpSvc/qcom/qcom32.cpp:170-197 | a PMIC_PON.BIN section gives its first 8 bytes to m_PmicPonBin and sets IsPmicPonBinCopied, a RST_STAT.BIN section its first 4 bytes to m_RstStatBin and sets IsRstStatBinCopied, and any other section copies nothing |
| QcomSv.UnknownNameCopiesNothing | OffDmpSvc/qcom/qcom32.cpp:156-168 | a name no GUIDToName entry carries selects the last entry, UNKNOWN, and its section copies nothing |
| QcomSv.SvScanOkIff | OffDmpSvc/qcom/qcom32.cpp:127-199 | the section loop returns S_OK exactly when SetPos and Read succeed for every SV specific section, and otherwise a failed HRESULT |
| QcomSv.SvScanCopiedIff | OffDmpSvc/qcom/qcom32.cpp:127-199 | once the loop succeeds, IsRstStatBinCopied (IsPmicPonBinCopied) is set exactly when it already was or the table holds an SV specific section named RST_STAT.BIN (PMIC_PON.BIN) |
| QcomSv.SvScanLengths | OffDmpSvc/qcom/qcom32.cpp:170-197 | the copies keep m_RstStatBin 4 bytes and m_PmicPonBin 8 bytes long |
| QcomSv.QCom32.CopySvSection | OffDmpSvc/qcom/qcom32.cpp:156-197 | the GUIDToName search and the copy change m_PmicPonBin, m_RstStatBin and their bits as the copy step specifies, and nothing else |
| QcomSv.QCom32.GetSVSpecificInfo | OffDmpSvc/qcom/qcom32.cpp:104-207 | a failed allocation gives E_FAIL with nothing copied; otherwise the result and the copies are those of the section-loop specification |
| QcomSv.ApRegLookupValid | OffDmpSvc/qcom/qcom32.cpp:212-279 | AP_REG is reported valid exactly when GetAPReg returns S_OK, which needs a successful query, a nonzero address and successful reads; a valid AP_REG is held in m_ApReg at the queried address; only IsAPREG64Bit, the address and m_ApReg change, and IsAPREG64Bit is only set after a successful header read |
| QcomSv.QCom32.GetAPReg | OffDmpSvc/qcom/qcom32.cpp:212-279 | the method leaves the result, the valid report and the state the AP_REG lookup specifies |
| QcomSv.LegacyApRegNullAsWritten | OffDmpSvc/qcom/qcom32.cpp:676-682 | as written, GetAPReg reports a legacy AP_REG valid with m_ApReg still null, and a watchdog RST_STAT then makes BuildBugCheckParams read CPU_Count through the null pointer |
| QcomSv.InMemDataOutcome | OffDmpSvc/qcom/qcom32.cpp:286-379 | IsInMemDataInfoFound mirrors S_OK; S_OK needs the query and the reset to succeed, the returned size to be sizeof(IN_MEM_DATA_INFO) and Size, DataPA and DataVA to be nonzero; E_BAD_DATA is returned exactly for a wrong size, or a zero field once the reset succeeded; a failed query leaves the info zeroed; nothing else changes |
| QcomSv.QCom32.GetInMemDataInfo | OffDmpSvc/qcom/qcom32.cpp:286-379 | the method leaves the result and the state the IN_MEM_DATA_INFO lookup specifies |
| QcomSv.DiagBufferBuilt | OffDmpSvc/qcom/qcom32.cpp:383-567 | the diag buffer is built exactly when the info is found and large enough for INMEM_DIAG_BUFFER, the allocation succeeds, the signature reads and matches and the bug check data reads; a built buffer holds those five words and returns the dummy-address read's HRESULT; a failed allocation returns S_OK unbuilt |
| QcomSv.QCom32.BuildDiagBuffer | OffDmpSvc/qcom/qcom32.cpp:383-567 | the method leaves the result and the state the diag buffer specification gives, and keeps the object valid |
| QcomSv.ProcessSvOutcome | OffDmpSvc/qcom/qcom32.cpp:52-99 | ProcessSVSpecific succeeds exactly when the SV section loop and GetAPReg do (a diag buffer failure is ignored), and afterwards a present AP_REG is held |
| QcomSv.QCom32.ProcessSVSpecific | OffDmpSvc/qcom/qcom32.cpp:52-99 | the method runs the three steps as the ProcessSVSpecific specification says and keeps the object valid |
| QcomSv.CodeAndParam4Fixed | OffDmpSvc/qcom/qcom32.cpp:584-590 | BugCheckCode is always FATAL_ABNORMAL_RESET_ERROR, and P4 is the diag buffer's DataVA cut to 32 bits once it is built, 0xFFFFFFFF otherwise |
| QcomSv.DecidesWhenApRegHeld | OffDmpSvc/qcom/qcom32.cpp:676-700 | with a present AP_REG held in m_ApReg the decision never reads through a null pointer |
| QcomSv.FallbackIff | OffDmpSvc/qcom/qcom32.cpp:723-749 | P1 becomes FALLBACK exactly when the diag buffer holds a bug check other than 0 and 0x14C and no earlier rule jumped to Exit; P3 then keeps the trigger the reset rules chose (UNKNOWN, USER_INITIATED or WATCHDOG) and P2 the bug check; otherwise the parameters are the reset rules' and P3 is 0 |
| QcomSv.WithoutRstStat | OffDmpSvc/qcom/qcom32.cpp:597-601 | without RST_STAT the parameters are the defaults, unless the fallback rewrite applies |
| QcomSv.ThermalSkipsFallback | OffDmpSvc/qcom/qcom32.cpp:613-618 | the thermal bit gives P1 THERMAL with P2 and P3 0, whatever the diag buffer holds |
| QcomSv.ExtendedPowerButtonHold | OffDmpSvc/qcom/qcom32.cpp:631-648 | a zero RST_STAT with PON_WARM_RESET_REASON1 0x2 gives USER_INITIATED, or FALLBACK with USER_INITIATED kept in P3 |
| QcomSv.WatchdogBite | OffDmpSvc/qcom/qcom32.cpp:665-717 | the watchdog bit gives WATCHDOG with P2 NONSECURE_WDOG when a legacy AP_REG shows a core with SC_STATUS_WDT, SECURE_WDOG and no fallback when AP_REG is present otherwise, and a FALLBACK only with WATCHDOG kept in P3 |
| QcomSv.QCom32.BuildBugCheckParams | OffDmpSvc/qcom/qcom32.cpp:573-767 | DumpHeader ends with the code and parameters the decision specifies |
| QcomSv.QCom32.ApplyResetRules | OffDmpSvc/qcom/qcom32.cpp:597-721 | from the defaults, the reset-status rules leave the parameters the rule specification gives, and the fallback check runs exactly when the rules do not end early |
| QcomSv.FindWdtCore | OffDmpSvc/qcom/qcom32.cpp:683-701 | the loop over the cores' sc_status words finds one exactly when some core has the WDT bit |
| QcomSv.QCom32.BuildInfoBuffer | OffDmpSvc/qcom/qcom32.cpp:1001-1028 | a null record gives E_FAIL; otherwise S_OK and the record has an ARM type (ARM64 exactly for a 64-bit dump), so it is read through the APRegPA, VA, PA and Size union, carries the dump instance, the AP_REG and diag buffer addresses and DumpHeader's bug check, and keeps its signature, version and payload size |
| QcomSv.QCom32.constructor | OffDmpSvc/qcom/qcom32.cpp:40-48 | m_ApReg and m_InMemDiagBuffer start null and m_APRegAddress 0 |
| OffdumpUtil.BuildDDRMemoryMap | test/offdumptool/exe/Dumputil.cpp:451-624 | a failed allocation is STATUS_NO_MEMORY with an empty map; the first section of the DDR run that is not a DDR range stops the copy with STATUS_BAD_DATA, keeping the entries copied so far; a UINT64 size sum other than TotalDDRSizeInBytes is STATUS_BAD_DATA; otherwise the map is the run's entries sorted by Base (a permutation), its holes and overlaps are added to the counters, and STATUS_SUCCESS holds exactly when no entry is degenerate and no overlap was counted, which leaves a well-formed marked map |
| OffdumpUtil.ReadLoopAgrees | test/offdumptool/exe/Dumputil.cpp:681-764 | from any state with bytes pending, on a map whose End is Base + Size - 1, the offline reader's loop makes the same reads and returns the same status as raw2dump's loop with file offset 0 |
| OffdumpUtil.ReadPlanAgrees | test/offdumptool/exe/Dumputil.cpp:675-784 | for 1 to 2^32 - 1 bytes not wrapping the address space, the offline read is raw2dump's read at file offset 0, both as written and as intended |
| OffdumpUtil.ReadCoversRequest | test/offdumptool/exe/Dumputil.cpp:700-762 | every read comes from an entry holding its first address, at (address - Base) + Offset, and lies on the disk; a successful read fills exactly Length bytes of the buffer in physical address order |
| OffdumpUtil.AsWrittenSpanningReadOverwrites | test/offdumptool/exe/Dumputil.cpp:725-746 | as written every piece is read to the start of the buffer, so a read over two or more sections is not laid out consecutively (see Findings) |
| OffdumpUtil.ReadLoopSkips | test/offdumptool/exe/Dumputil.cpp:681-701 | before the first read, entries whose [Base, Base + Size - 1] does not hold the address are passed over |
| OffdumpUtil.UnmappedAddressFails | test/offdumptool/exe/Dumputil.cpp:771-781 | an address no entry holds is STATUS_UNSUCCESSFUL with nothing read, whatever the length |
| OffdumpUtil.ReadFromDDRSectionByPhysicalAddress | test/offdumptool/exe/Dumputil.cpp:628-784 | the status, and the buffer after applying the reads, are those of the read plan with the destination advancing after each piece |
| OffdumpUtil.ReadSection | test/offdumptool/exe/Dumputil.cpp:715-762 | one piece: a read off the disk ends the reader with STATUS_UNSUCCESSFUL; otherwise its bytes are copied to the buffer's current position, and the reader ends with STATUS_SUCCESS when no byte remains or goes on in the loop's next state |
| OffdumpUtil.WriteToDumpByPhysicalAddress | test/offdumptool/exe/Dumputil.cpp:1583-1735 | no run holding [PA, PA + Size - 1] is STATUS_INVALID_PARAMETER; in the first run that holds it the offset (PA - run start) + the runs before + DDRFileOffset is written at with the write's status, except that an offset of 0 writes nothing and is STATUS_UNSUCCESSFUL |
| OffdumpUtil.WriteSkippedOnlyAtOffsetZero | test/offdumptool/exe/Dumputil.cpp:1681-1707 | when nothing wraps, the write is skipped exactly for the first address of a run with no bytes before it and DDRFileOffset 0 |
| OffdumpSearch.SearchMeaning | test/offdumptool/exe/Dumputil.cpp:864-896 | the search finds a header exactly when some index below the bound holds the magic string followed by PAGEDUMP or PAGEDU64; `*offset` is then just past the first such magic and Is64Bit is set exactly for PAGEDU64; when nothing is found Is64Bit is kept and `*offset` is the old value or just past a magic with a wrong signature |
| OffdumpSearch.FindHeaderComplete | test/offdumptool/exe/Dumputil.cpp:864 | with the bound including the last position, a header is found exactly when one lies wholly inside the buffer |
| OffdumpSearch.AsWrittenMissesHeaderAtEnd | test/offdumptool/exe/Dumputil.cpp:864 | the bound as written misses a header in the buffer's last 32 bytes: a 32-byte buffer holding the magic and PAGEDUMP is not found (see Findings) |
| OffdumpSearch.ISContainDumpHeader | test/offdumptool/exe/Dumputil.cpp:837-900 | verdict, `*offset` and Is64Bit are those of the search over every position that leaves room for the magic and signature |
| OffdumpSearch.ValidateKdDebuggerDataBlock | test/offdumptool/exe/Dumputil.cpp:1515-1575 | the header is valid exactly when its Size is one of the five known KDDEBUGGER_DATA64 sizes and its OwnerTag is KDBG_TAG |
| OffdumpMerge.LowestFromIsLowest | test/offdumptool/exe/Dumputil.cpp:2268-2278 | the section search returns a value at most every pending base, and either keeps currentBaseOffset and sectionid or returns a pending section and its base |
| OffdumpMerge.MarkPending | test/offdumptool/exe/Dumputil.cpp:2351 | marking a pending section AlreadyMerged leaves exactly one fewer pending |
| OffdumpMerge.FirstPick | test/offdumptool/exe/Dumputil.cpp:2265-2278 | with a section pending and no pending base at 0xFFFFFFFFFFFFFFFF, a turn picks a pending section whose base is the lowest pending base |
| OffdumpMerge.PicksAreSelectionOrder | test/offdumptool/exe/Dumputil.cpp:2262-2351 | over at most as many turns as sections pending, the turns pick distinct pending sections in ascending order of base |
| OffdumpMerge.PicksCoverPending | test/offdumptool/exe/Dumputil.cpp:2262-2351 | as many turns as sections pending pick every pending section |
| OffdumpMerge.FreshMergeOrder | test/offdumptool/exe/Dumputil.cpp:2249-2351 | with no section merged before and no base at 0xFFFFFFFFFFFFFFFF, DDRCount turns take every section exactly once, in ascending order of base, the first at lowestbase |
| OffdumpMerge.FreshMergeMapSorted | test/offdumptool/exe/Dumputil.cpp:2335-2346 | a full merge of fresh sections leaves the map sorted by Base |
| OffdumpMerge.EntriesLocateSections | test/offdumptool/exe/Dumputil.cpp:2325-2346 | each merged section's map entry locates its file in the merged file: from the entry's Offset on, Size bytes are that file's bytes |
| OffdumpMerge.AsWrittenOffsetAdjacent | test/offdumptool/exe/Dumputil.cpp:2338-2343 | when the sections lie back to back, the Offset as written (base minus lowestbase) is where the section's bytes start in the merged file |
| OffdumpMerge.AsWrittenOffsetWithHole | test/offdumptool/exe/Dumputil.cpp:2338-2343 | with a hole the Offset as written points past the section's bytes: sections at 0 and 2 of one byte each give the second Offset 2 in a 2-byte merged file, where its byte is at 1 (see Findings) |
| OffdumpMerge.MergeDDRFiles | test/offdumptool/exe/Dumputil.cpp:2202-2382 | the map gets DDRCount zeroed entries and both counts become DDRCount; the merge succeeds exactly when the merged file is created and every turn's file opens, sizes and merges; the map holds an entry for each turn up to the first failure, TotalDDRSizeInBytes has their sizes added, those sections are marked AlreadyMerged, and on success the merged file is their files one after another in turn order |
| OffdumpMerge.MergeLoop | test/offdumptool/exe/Dumputil.cpp:2262-2372 | the loop stops at the first turn whose file fails, and its state is the state after the turns before it |
| OffdumpMerge.SelectLowest | test/offdumptool/exe/Dumputil.cpp:2265-2278 | the search loop computes the section search's choice |
| OffdumpMerge.LowestBaseOf | test/offdumptool/exe/Dumputil.cpp:2249-2257 | the lowestbase loop computes the search's lowest base |
| Raw2DumpExtract64.ValidateDDRAgainstPhysicalMemoryBlock64 | raw2dump/src/DumpExtract64.cpp:196-291 | stores NumberOfPages * PAGE_SIZE (UINT64) as SizeAccordingToMemoryDescriptors and nothing else; returns STATUS_SUCCESS exactly when the walk over the DDR map accepts every run, else STATUS_BAD_DATA, an oversized descriptor alone not failing because its exit is commented out |
| Raw2DumpExtract64.ValidatedRunsAreMapped64 | raw2dump/src/DumpExtract64.cpp:206-287 | every run of an accepted descriptor starts in some DDR map entry and ends in that or a later one, every entry in between marked Contiguous |
| Raw2DumpExtract64.WriteDumpHeader64 | raw2dump/src/DumpExtract64.cpp:319-365 | the header gets RequiredDumpSpace, the bug check code and the four parameters cut to their low 32 bits, SecondaryDataState STATUS_SUCCESS when SV or CPU context sections exist; on a successful write the dump offset and DDRFileOffset are 0x2000, on a failed one the offset is 0 and the write's status is returned |
| Raw2DumpExtract64.IoCount | raw2dump/src/DumpExtract64.cpp:420-425 | ioCountPerRun is the number of 2 MiB buffers a run needs, its size divided by the buffer size rounded up, whenever that fits in a UINT32 |
| Raw2DumpExtract64.ChunkSize | raw2dump/src/DumpExtract64.cpp:432 | a transfer is never more than one buffer: the pages left times PAGE_SIZE when under 2 MiB, exactly 2 MiB otherwise |
| Raw2DumpExtract64.PagesWritten | raw2dump/src/DumpExtract64.cpp:471 | bytesWritten / PAGE_SIZE in LONGLONG is the exact page count for any count below 2^63 |
| Raw2DumpExtract64.WriteDDR64 | raw2dump/src/DumpExtract64.cpp:407-486 | a failed allocation returns STATUS_NO_MEMORY with nothing written; otherwise the writes, the new dump offset and the status are those of copying every run's transfers in order, stopped at the first failed read or write, with a page count mismatch failing |
| Raw2DumpExtract64.CopyRuns | raw2dump/src/DumpExtract64.cpp:416-469 | the run loop leaves the state of copying the transfers of the runs in order, stopping at the first failure |
| Raw2DumpExtract64.CopyRun | raw2dump/src/DumpExtract64.cpp:418-464 | the transfer loop of one run leaves the state of copying that run's planned transfers in order, stopping at the first failure |
| Raw2DumpExtract64.Transfer | raw2dump/src/DumpExtract64.cpp:434-462 | one transfer: a failed read or write is recorded and stops the copy; otherwise the bytes read are written at the dump offset, which and bytesWritten grow by the transfer's size |
| Raw2DumpExtract64.RunTiles | raw2dump/src/DumpExtract64.cpp:418-464 | the intended transfers of a run read exactly the run: they start at BasePage * PAGE_SIZE, each begins where the previous ends, and their sizes add up to PageCount * PAGE_SIZE |
| Raw2DumpExtract64.RunPlanStarts | raw2dump/src/DumpExtract64.cpp:429-432 | the transfers as written and as intended have the same sizes; transfer i starts at the base plus the UINT32 product i * 2 MiB as written and plus the full product as intended |
| Raw2DumpExtract64.AsWrittenAgreesUpTo4GiB | raw2dump/src/DumpExtract64.cpp:429-432 | for a run of at most 4 GiB the transfers as written are the intended ones |
| Raw2DumpExtract64.AsWrittenRereadsAfter4GiB | raw2dump/src/DumpExtract64.cpp:430 | a run of 4 GiB and one page at 0 takes 2049 transfers; as written, transfer 2048 starts again at 0, where 4 GiB is intended |
| Raw2DumpExtract64.CopySucceedsIff | raw2dump/src/DumpExtract64.cpp:434-458 | the copy gets through exactly when every read and every write succeeds; then it made one write per transfer, and a failure is reported with a failing status |
| Raw2DumpExtract64.CopyLayout | raw2dump/src/DumpExtract64.cpp:445-461 | a copy that gets through writes the bytes read for each transfer back to back from the start offset, after the earlier writes, and the offset and bytesWritten grow by the transfers' total size |
| Raw2DumpExtract64.DescriptorPagesDecide | raw2dump/src/DumpExtract64.cpp:416-477 | WriteDDR64 as intended succeeds exactly when every read and write succeeds and NumberOfPages is the runs' total page count; then the dump offset has moved past all the runs' bytes |
| Raw2DumpExtract64.AsWrittenIgnoresPageCount | raw2dump/src/DumpExtract64.cpp:471-477 | as written, a copy whose reads and writes all succeed returns STATUS_SUCCESS whatever NumberOfPages is; as intended, a mismatch returns STATUS_UNSUCCESSFUL |
| Raw2DumpExtract64.AsWrittenAcceptsMissingPage | raw2dump/src/DumpExtract64.cpp:471-477 | a descriptor claiming two pages with a single run of one page: STATUS_SUCCESS as written, STATUS_UNSUCCESSFUL as intended |
| OffdumpExtract64.UpdateIfZero | test/offdumptool/exe/common.h:72 | a non-zero destination keeps its value, a zero one takes the source |
| OffdumpExtract64.FillBugCheckMeaning | test/offdumptool/exe/DumpExtract64.cpp:104-108 | each zero bug check field of the header takes the context's value cut to 32 bits, a non-zero one is kept, and the rest of the header is unchanged |
| OffdumpExtract64.FillBugCheckIdempotent | test/offdumptool/exe/DumpExtract64.cpp:104-108 | filling the bug check fields a second time changes nothing |
| OffdumpExtract64.GetDumpHeader64 | test/offdumptool/exe/DumpExtract64.cpp:58-114 | a zero header address or a failed read gives STATUS_UNSUCCESSFUL, a failed allocation STATUS_NO_MEMORY; a read header succeeds exactly when Signature and ValidDump are right, else STATUS_BAD_DATA with the header as read; on success the header has the context's bug check data in its zero fields |
| OffdumpExtract64.CanonicalMeans | test/offdumptool/exe/DumpExtract64.cpp:961-970 | the walk accepts exactly the addresses in the low or high 2^47 bytes of the address space, those whose bits 48-63 repeat bit 47 |
| OffdumpExtract64.Index | test/offdumptool/exe/DumpExtract64.cpp:982 | every table index is below 512 |
| OffdumpExtract64.EntryInTablePage | test/offdumptool/exe/DumpExtract64.cpp:982-1021 | each entry the walk reads lies 8-byte aligned inside the 4 KiB table page whose frame the parent entry gives |
| OffdumpExtract64.TranslateMeaning | test/offdumptool/exe/DumpExtract64.cpp:945-1033 | a zero directory table base fails with STATUS_BAD_DATA and leaves the physical address alone; a non-canonical address fails with STATUS_BAD_DATA; any other failure is a read's status with the address all ones; a success keeps the address below 2^48 at va's offset within a 1 GiB, 2 MiB or 4 KiB page |
| OffdumpExtract64.FrameKeepsOffset1G | test/offdumptool/exe/DumpExtract64.cpp:1001 | a 1 GiB block's address lies in the block's frame at va's offset |
| OffdumpExtract64.FrameKeepsOffset2M | test/offdumptool/exe/DumpExtract64.cpp:1016 | a 2 MiB block's address lies in the block's frame at va's offset |
| OffdumpExtract64.FrameKeepsOffset4K | test/offdumptool/exe/DumpExtract64.cpp:1031 | a 4 KiB page's address lies in the PTE's frame at va's offset |
| OffdumpExtract64.TranslatePageWalk | test/offdumptool/exe/DumpExtract64.cpp:1021-1033 | a walk whose four reads succeed through non-block entries returns STATUS_SUCCESS with the PTE's page frame and va's offset in the page |
| OffdumpExtract64.ReadEntry | test/offdumptool/exe/DumpExtract64.cpp:984 | an entry read is the offline reader's read of 8 bytes at the entry address into a zeroed UINT64, taken little-endian |
| OffdumpExtract64.VirtualToPhysical64 | test/offdumptool/exe/DumpExtract64.cpp:945-1033 | the method's status and physical address are those of the walk Translate describes |
| OffdumpExtract64.StaysInPageMeans | test/offdumptool/exe/DumpExtract64.cpp:684-700 | the intended page check accepts a read exactly when its first and last bytes are in the same 4 KiB page |
| OffdumpExtract64.PageCheckAsWrittenIsLengthBound | test/offdumptool/exe/DumpExtract64.cpp:688-700 | away from the top of the address space, the check as written accepts a read exactly when it is at most 0x1000 bytes long, wherever it starts |
| OffdumpExtract64.AsWrittenAcceptsPageCrossing | test/offdumptool/exe/DumpExtract64.cpp:688-700 | 16 bytes at 0xFF8 pass the check as written although they span two pages |
| OffdumpExtract64.ReadFromDDRSectionByVirtualAddress64 | test/offdumptool/exe/DumpExtract64.cpp:688-746 | the physical address starts as ADDRESS_NOT_PRESENT; a read leaving va's page gives STATUS_INVALID_PARAMETER and a failed translation its status, both leaving the buffer alone; otherwise the address is the translation's and the buffer and status those of the read by physical address |
| OffdumpExtract64.GetAmd64CPUContext | test/offdumptool/exe/DumpExtract64.cpp:1300-1313 | the first CPU_CONTEXT entry of the table gives the CPU context address and size with STATUS_SUCCESS; with none the status is STATUS_UNSUCCESSFUL and both are kept |
| MakeDumpDefs.Offset2Value | tools/makeRawDump/makeDumpFile.cpp:347-350 | the test-pattern byte at an offset is printable ASCII, between TEST_PATTERN_BEGIN (32) and TEST_PATTERN_END (126) |
| MakeDumpDefs.Present | tools/makeRawDump/makeHeader.cpp:103-120 | the entries of a list with no null slot, in order: the list is exactly those entries, each present |
| MakeDumpDefs.SumSizesAppend | tools/makeRawDump/makeHeader.cpp:103-120 | the sum of the section Sizes of two lists one after the other is the sum of the two sums |
| MakeDumpDefs.SumSizesPermutation | tools/makeRawDump/makeDumpFile.cpp:861-896 | reordering a list of sections (same multiset) leaves the sum of its Sizes unchanged, so sorting the DDR list keeps the DDR payload size |
| MakeDumpDefs.Resize | tools/makeRawDump/processArgs.cpp:271-289 | ResizeSectionsList: the list grows to newSize, keeping its entries and adding null slots, and never shrinks |
| MakeDumpDefs.ResizeOnlyGrows | tools/makeRawDump/processArgs.cpp:275-288 | a resize never shortens the list, is the identity when newSize is not larger, and keeps every existing entry |
| MakeDumpDefs.NewSection | tools/makeRawDump/processArgs.cpp:365-395 | a new section header is VALID, has the section header version, the given type, Base, Size and name, and Offset INVALID |
| MakeHeader.GetSectionSize | tools/makeRawDump/makeHeader.cpp:93-125 | succeeds exactly when no entry is null, and then returns the 64-bit sum of the entry Sizes; a null entry gives E_FAIL with the total 0 |
| MakeHeader.GeneratedHeader | tools/makeRawDump/makeHeader.cpp:52-65 | each bad* flag makes its field the bitwise complement of the correct constant and otherwise the constant; OsData, CpuContext and ResetTrigger are 0; DumpSize = header + section table + the three payloads modulo 2^64, and TotalDumpSizeRequired = DumpSize |
| MakeHeader.PopulateRawDumpFileHeader | tools/makeRawDump/makeHeader.cpp:36-69 | succeeds exactly when none of the DDR, CPU and SV lists has a null entry; then stores the three payload sums and the generated header; on failure gives E_FAIL and leaves the header as it was |
| MakeHeader.GeneratedHeaderVerdict | tools/makeRawDump/makeHeader.cpp:53-55 | the shared header validator rejects the generated header for a bad signature, then for a bad version, and accepts it otherwise |
| ProcessDdr.IdDigits | tools/makeRawDump/processDDR.h:19-22 | the id printed with "%03d" is 3 to 10 decimal digits that read back as the id |
| ProcessDdr.DdrNameReadsBack | tools/makeRawDump/processDDR.cpp:47-50 | the DDR name is "DDRCS", the zero-padded decimal id, then ".BIN", and the digits read back as the id |
| ProcessDdr.DdrName | tools/makeRawDump/processDDR.cpp:47-50 | the DDR name fits the 20-byte name field with its terminating NUL |
| ProcessDdr.DdrNamesDistinct | tools/makeRawDump/processDDR.cpp:47-50 | two different ids give two different name fields |
| ProcessDdr.NameFieldInjective | tools/makeRawDump/processDDR.cpp:47-50 | names without a NUL that fit the field are told apart by their NUL-padded field |
| ProcessDdr.MakeDDRNameString | tools/makeRawDump/processDDR.cpp:37-54 | succeeds exactly when nameLen is at most RAW_DUMP_SECTION_HEADER_NAME_LENGTH, and then gives the name field of "DDRCS%03d.BIN"; otherwise E_INVALIDARG and no name |
| ProcessDdr.ScanEndMeaning | tools/makeRawDump/processDDR.cpp:88-107 | the scan keeps (maxBase, endDDR) when no populated entry has a larger Base; otherwise it ends at the first entry with the largest Base above maxBase, and endDDR is that Base + Size |
| ProcessDdr.ScanMaxBase | tools/makeRawDump/processDDR.cpp:88-107 | the scan loop computes the scan function started at DEFAULT_DDR_SECTIONS_BASE with end 0 |
| ProcessDdr.FillMeaning | tools/makeRawDump/processDDR.cpp:109-137 | slot by slot, the fill keeps populated entries and gives the k-th null slot a default DDR section whose Base is the start plus k default sizes |
| ProcessDdr.FillDefaults | tools/makeRawDump/processDDR.cpp:109-137 | the fill loop leaves the list the fill function computes |
| ProcessDdr.UpdateDDRWithDefault | tools/makeRawDump/processDDR.cpp:78-140 | always S_OK; the list keeps its length and has no null slot; populated entries are unchanged; the null slot j gets a DDR-type VALID section of defaultSize named DDRCS<j>.BIN, with Offset INVALID and consecutive bases from the end of the populated entry with the largest Base above DEFAULT_DDR_SECTIONS_BASE, or from 0 when there is none |
| ProcessSv.OnlyRowZeroIsApReg | common/lib/SV_Specific.cpp:18-35 | only the first row of SvSectionTable carries the AP_REG GUID |
| ProcessSv.SvName | tools/makeRawDump/processSV.cpp:42 | the SV name is "SV_" followed by the table name, and fits the name field |
| ProcessSv.MakeSVNameString | tools/makeRawDump/processSV.cpp:29-46 | succeeds exactly when nameLen fits the name field and "SV_" + the table name + NUL fits it, and then gives that name; otherwise E_INVALIDARG and no name |
| ProcessSv.EveryRowIsNamed | tools/makeRawDump/processSV.cpp:33-39 | every table row passes the length check with the full name field |
| ProcessSv.RowOfNameInverts | common/lib/SV_Specific.cpp:18-35 | a row's name identifies the row |
| ProcessSv.SvNamesDistinct | tools/makeRawDump/processSV.cpp:42 | two table rows give two different name fields |
| ProcessSv.UpdateSVWithDefault | tools/makeRawDump/processSV.cpp:74-122 | always S_OK; the list grows to at least SV_ROWS_TO_USE + (excludeApReg ? 0 : 1) entries, each of those filled with its table row's entry, and entries past them unchanged |
| ProcessSv.ExcludedApRegKeepsCpuType | tools/makeRawDump/processSV.cpp:91-110 | with excludeApReg, entry 0 is named after row 1 with row 1's size, yet is typed CPU_CONTEXT (the flag computed before the skip), and no entry is named after AP_REG |
| ProcessSv.IncludedApRegFollowsTable | tools/makeRawDump/processSV.cpp:91-112 | without excludeApReg, entry i takes row i's name and size, and is CPU_CONTEXT exactly when the row is AP_REG |
| ProcessSv.SvListNamesDistinct | tools/makeRawDump/processSV.cpp:89-117 | the filled SV entries all have different names |
| CrtText.Tokens | tools/makeRawDump/processArgs.cpp:321-361 | strtok on ':' gives the non-empty colon-free pieces of the argument |
| CrtText.FirstToken | tools/makeRawDump/processArgs.cpp:321-332 | when the argument begins with a non-empty colon-free name followed by ':' or its end, the first token is that name and the rest are the tokens after the ':' |
| CrtText.DecimalRoundTrip | tools/makeRawDump/processDDR.cpp:47-50 | the decimal digits printed for n read back as n |
| CrtText.ZeroPadValue | tools/makeRawDump/processDDR.h:19-22 | zero-padding a digit string to a width keeps its value |
| CrtText.StrToUnsigned | tools/makeRawDump/processArgs.cpp:338-351 | strtoul/_strtoui64: a value beyond the width gives the largest one (ERANGE), and a value within it, without a minus sign, is the value of the longest digit run (after an optional "0x" in base 16) |
| CrtText.Atoi | tools/makeRawDump/processArgs.cpp:343 | atoi's result is clamped to the int range |
| CrtText.DecimalReadsBack | tools/makeRawDump/processArgs.cpp:343 | a number printed in decimal is read back by the digit parser |
| ProcessArgs.FoundRow | tools/makeRawDump/processArgs.cpp:226-246 | no row is found exactly when no row matches, and a found row matches |
| ProcessArgs.FindArgumentInParameterArray | tools/makeRawDump/processArgs.cpp:223-249 | returns INVALID_UINT32 exactly when no row's name is a case-insensitive prefix of the argument ending there or at ':'; otherwise the first such row |
| ProcessArgs.MatchFixesName | tools/makeRawDump/processArgs.cpp:47-64 | two rows matching the same argument have names equal up to case |
| ProcessArgs.AtMostOneRowMatches | tools/makeRawDump/processArgs.cpp:47-64 | at most one switch of the table matches any argument, so the first match is the only one |
| ProcessArgs.FoundRowIsUnique | tools/makeRawDump/processArgs.cpp:226-246 | a matching row is the one the search finds |
| ProcessArgs.MatchedModifiers | tools/makeRawDump/processArgs.cpp:321-332 | once the switch matched, its modifiers are the tokens after the switch's ':' |
| ProcessArgs.FlagHasNoModifiers | tools/makeRawDump/processArgs.cpp:153-161 | a flag switch that passed the no-':' check has no modifiers |
| ProcessArgs.ProcessFileSize | tools/makeRawDump/processArgs.cpp:510-535 | succeeds exactly when a size token follows, and stores it read as hex after "0x" and as decimal otherwise; else E_INVALIDARG with the config unchanged |
| ProcessArgs.ProcessFileName | tools/makeRawDump/processArgs.cpp:548-579 | succeeds exactly when a ':' is present and neither /File nor /Part was given, storing the text after the ':' as the file name; no ':' gives E_INVALIDARG; failure leaves the config unchanged |
| ProcessArgs.ProcessPart | tools/makeRawDump/processArgs.cpp:591-611 | succeeds exactly when no /File was given and selects partition output; otherwise E_FAIL with the config unchanged |
| ProcessArgs.ProcessDDRSize | tools/makeRawDump/processArgs.cpp:411-443 | a repeated /DDRSize gives E_FAIL; otherwise it succeeds exactly when a size token follows, storing its value |
| ProcessArgs.ProcessDDRCount | tools/makeRawDump/processArgs.cpp:456-498 | succeeds exactly when a count token follows and its value is at most MAX_DDR_SECTIONS; a larger count raises the count and grows the DDR list, a smaller one changes nothing; failure leaves the config unchanged |
| ProcessArgs.ProcessDDRProximity | tools/makeRawDump/processArgs.cpp:624-660 | a repeated /DDRProx gives E_FAIL; otherwise it succeeds exactly when the token names ADJACENT or SCATTER, and stores it |
| ProcessArgs.ProcessDDROrder | tools/makeRawDump/processArgs.cpp:672-716 | the repeat guard tests the proximity, not the order: it fails with E_FAIL once a proximity was set; otherwise it succeeds exactly when the token names an order, and stores it |
| ProcessArgs.ProcessNumCores | tools/makeRawDump/processArgs.cpp:728-757 | a repeated /NumCores gives E_FAIL; otherwise it succeeds exactly when a count token follows, and stores its value |
| ProcessArgs.ProcessNoPayload | tools/makeRawDump/processArgs.cpp:770-797 | a repeated /NoPayload gives E_FAIL; otherwise it succeeds exactly when there is no modifier, and turns the payload off |
| ProcessArgs.ProcessNoAPReg | tools/makeRawDump/processArgs.cpp:810-837 | a repeated /NoApReg gives E_FAIL; otherwise it succeeds exactly when there is no modifier, and excludes AP_REG |
| ProcessArgs.DdrTokens | tools/makeRawDump/processArgs.cpp:330-361 | the token loop succeeds exactly when the first three tokens are present; too few give E_INVALIDARG, and tokens after the third are ignored; only a table row asking for more than three tokens gives E_FAIL, and no row of PARAMETER_LIST does; the id is read by atoi and base and size by _strtoui64 in the base their "0x" selects |
| ProcessArgs.StoreDdrSection | tools/makeRawDump/processArgs.cpp:365-395 | corrected store: a negative id gives E_INVALIDARG with nothing changed; otherwise the list grows to id+1 if needed (the count following), entry id becomes a DDR-type VALID section with the given Base and Size and Offset INVALID, and every other entry is unchanged |
| ProcessArgs.DdrTokensIgnoreExtra | tools/makeRawDump/processArgs.cpp:328-361 | with at most three modifiers read, modifiers after them do not change the verdict or the id, base and size |
| ProcessArgs.NoRowAsksForFourTokens | tools/makeRawDump/processArgs.cpp:47-64 | no row of the switch table asks for more than three modifiers, so the E_FAIL default case of the /DDR token switch is never reached |
| ProcessArgs.ReadDdrTokens | tools/makeRawDump/processArgs.cpp:330-361 | the strtok loop computes the token function |
| ProcessArgs.ProcessDDRParameters | tools/makeRawDump/processArgs.cpp:308-398 | the handler computes the /DDR parameter function |
| ProcessArgs.DdrStoresSection | tools/makeRawDump/processArgs.cpp:308-398 | /DDR:id:base:size succeeds exactly when the three tokens are there and the id is not negative, storing that section at the id and keeping the others; failure changes nothing |
| ProcessArgs.DdrStoreAsWritten | tools/makeRawDump/processArgs.cpp:365-375 | as written, for a non-negative id the list grows to id+1 and the store index is inside it |
| ProcessArgs.NegativeIdPassesGuard | tools/makeRawDump/processArgs.cpp:367-375 | as written, a negative id converted to size_t passes the `sectionID >= size()` guard, and the store index falls outside the list |
| ProcessArgs.DdrMinusOneAsWritten | tools/makeRawDump/processArgs.cpp:367-375 | as written, /DDR:-1 on the default list sets the count to 0, leaves the list at 2 entries and stores at index -1 |
| ProcessArgs.DdrKeepsCount | tools/makeRawDump/processArgs.cpp:365-395 | /DDR keeps the DDR list at least as long as the count, and never shortens it |
| ProcessArgs.RunHandler | tools/makeRawDump/processArgs.cpp:162-169 | every handler keeps the DDR list at least as long as the count, and never shortens it |
| ProcessArgs.SwitchOutcome | tools/makeRawDump/processArgs.cpp:129-181 | a failing switch always adds a message; a switch that runs no handler leaves the config unchanged |
| ProcessArgs.StrayArgumentFails | tools/makeRawDump/processArgs.cpp:129-146 | an argument not starting with '/' or '-' gives E_FAIL and its message; an unknown switch gives E_FAIL and the unknown-switch message; the config is unchanged |
| ProcessArgs.PlaceholderSwitchIgnored | tools/makeRawDump/processArgs.cpp:147-152 | /NoSvData and /NoTzData, which have no handler, only add a warning |
| ProcessArgs.FlagWithModifierFails | tools/makeRawDump/processArgs.cpp:153-161 | a flag switch given a ':' modifier fails with E_FAIL and the no-modifiers message, and its handler is not run |
| ProcessArgs.StepAppendsMessages | tools/makeRawDump/processArgs.cpp:140-169 | the failure text only grows, and a failing argument always adds to it |
| ProcessArgs.StepKeepsCount | tools/makeRawDump/processArgs.cpp:122-185 | one argument keeps the DDR list at least as long as the count |
| ProcessArgs.ParseDefaults | tools/makeRawDump/processArgs.cpp:106-120 | before parsing: DDR count 2, size 2 GiB, proximity, order and core count unset, payload on, AP_REG and TZ included |
| ProcessArgs.UnsetDefaults | tools/makeRawDump/processArgs.cpp:187-203 | after a successful parse, an unset proximity, order or core count gets its default and a set one keeps its value; nothing else changes |
| ProcessArgs.ProcessArgument | tools/makeRawDump/processArgs.cpp:124-183 | one pass of the argument loop computes the step function |
| ProcessArgs.ProcessCommandArguments | tools/makeRawDump/processArgs.cpp:99-206 | the loop computes the parse function; on success proximity, order and core count are all set |
| ProcessArgs.ParseKeepsCount | tools/makeRawDump/processArgs.cpp:122-185 | the parse keeps the DDR list at least as long as the count, and a failed state is left as it is |
| ProcessArgs.CommandArgumentsKeepCount | tools/makeRawDump/processArgs.cpp:99-206 | after parsing, the DDR list holds at least the count and at least the 2 default entries |
| ProcessArgs.FailureStopsParsing | tools/makeRawDump/processArgs.cpp:122 | once an argument fails, the arguments after it change nothing |
| ProcessArgs.NoSwitchesGiveDefaults | tools/makeRawDump/processArgs.cpp:106-203 | ProcessCommandArguments called with argv = [program] gives S_OK, ADJACENT, ASCENDING, DEFAULT_CORE_COUNT, payload on, AP_REG in, 2 DDR sections of 2 GiB |
| ProcessArgs.ProximityBlocksOrder | tools/makeRawDump/processArgs.cpp:683-686 | after a successful /DDRProx, every /DDROrder fails with E_FAIL |
| ProcessArgs.OrderRepeatAccepted | tools/makeRawDump/processArgs.cpp:683-686 | a second /DDROrder is not refused: it does what it would have done alone |
| ProcessArgs.DdrCountOnlyRaises | tools/makeRawDump/processArgs.cpp:477-493 | /DDRCount never lowers the count, never raises it past MAX_DDR_SECTIONS, and keeps the list's entries |
| MakeDumpFile.ResizeNulls | tools/makeRawDump/makeDumpFile.cpp:752-757 | growing a list adds exactly the new slots as null slots |
| MakeDumpFile.FillKeepsEntries | tools/makeRawDump/makeDumpFile.cpp:759-783 | the fill leaves every non-null destination entry unchanged |
| MakeDumpFile.FillUsesAll | tools/makeRawDump/makeDumpFile.cpp:759-783 | with at least as many null slots as source entries, every source entry is placed |
| MakeDumpFile.FillPacked | tools/makeRawDump/makeDumpFile.cpp:759-783 | filling a table made of entries then null slots appends the source entries after them, in order |
| MakeDumpFile.CopyKeepsAndCompletes | tools/makeRawDump/makeDumpFile.cpp:728-789 | the copy never shortens the destination, keeps its non-null entries, and succeeds whenever the sizes fit a UINT32 |
| MakeDumpFile.CopyAppends | tools/makeRawDump/makeDumpFile.cpp:742-783 | copying onto entries followed by null slots succeeds and leaves the entries, the source entries in order, then the remaining null slots |
| MakeDumpFile.CountNulls | tools/makeRawDump/makeDumpFile.cpp:742-750 | the counting loop gives the number of null slots, as a UINT32 |
| MakeDumpFile.FillSlots | tools/makeRawDump/makeDumpFile.cpp:759-783 | the fill loop leaves the table the fill function computes and reports how many source entries it used |
| MakeDumpFile.CopySectionTable | tools/makeRawDump/makeDumpFile.cpp:728-789 | the method computes the copy function: grow by the missing null slots, fill them in order, E_FAIL if a source entry is left over |
| MakeDumpFile.Swap | tools/makeRawDump/makeDumpFile.cpp:879-886 | swapping two neighbours exchanges them, keeps every other entry, and keeps the multiset |
| MakeDumpFile.BubbleStepCarriesMax | tools/makeRawDump/makeDumpFile.cpp:873-888 | one compare-and-swap carries the largest (or smallest) Base seen so far up by one place, keeping the sorted top |
| MakeDumpFile.BubblePass | tools/makeRawDump/makeDumpFile.cpp:873-888 | one inner pass keeps the multiset and extends the sorted top by one place |
| MakeDumpFile.SortVector | tools/makeRawDump/makeDumpFile.cpp:861-896 | succeeds exactly for ASCENDING and DESCENDING, giving a permutation sorted by DDR Base in that direction; any other order gives E_INVALIDARG with the list unchanged |
| MakeDumpFile.SortDdrSectionTable | tools/makeRawDump/makeDumpFile.cpp:809-841 | always S_OK; ASCENDING and DESCENDING sort the list, AS_LISTED leaves it as it is, and the entries are a permutation of those given |
| MakeDumpFile.PackingEnds | tools/makeRawDump/makeDumpFile.cpp:694-707 | the packed offsets start at entry 0's Offset and end at it plus the sum of the Sizes, modulo 2^64 |
| MakeDumpFile.SetTableOffsets | tools/makeRawDump/makeDumpFile.cpp:694-707 | every entry keeps everything but its Offset, and Offset[i] = Offset[i-1] + Size[i-1] from entry 0's Offset |
| MakeDumpFile.PackedOffsetIgnoresOffsets | tools/makeRawDump/makeDumpFile.cpp:694-707 | the packed offsets depend only on the Sizes |
| MakeDumpFile.CopyAdjacent | tools/makeRawDump/makeDumpFile.cpp:584-599 | the ADJACENT table is all SV entries, then all DDR entries, then all CPU entries |
| MakeDumpFile.PlaceTable | tools/makeRawDump/makeDumpFile.cpp:663-675 | entry 0 gets the payload offset and the rest are packed after it |
| MakeDumpFile.CreateFullSectionsTable | tools/makeRawDump/makeDumpFile.cpp:564-678 | SectionsCount = |DDR| + |SV| + |CPU|, payloadOffset = the table offset + the section table size; the DDR list is a permutation, sorted when asked; the section table is SV, DDR, CPU with packed offsets from payloadOffset; nothing else changes |
| MakeDumpFile.AdjacentTotal | tools/makeRawDump/makeDumpFile.cpp:584-599 | the ADJACENT table holds every entry once, and its Sizes sum to the three payload sums |
| MakeDumpFile.LastSectionEndsAtDumpSize | tools/makeRawDump/makeDumpFile.cpp:567-570 | the last packed section of an ADJACENT table ends exactly at the DumpSize the header announces (makeHeader.cpp:61-65), modulo 2^64 |
| MakeDumpMain.MainParseAsWritten | tools/makeRawDump/makeDumpFile.cpp:70-75 | main as written: with no argument the zeroed config is kept with S_OK; otherwise the parse is ProcessCommandArguments' |
| MakeDumpMain.MainParse | tools/makeRawDump/makeDumpFile.cpp:70-75 | the corrected main, which always runs the parser: a successful parse always sets the proximity and the order |
| MakeDumpMain.TableBeforeStamp | tools/makeRawDump/makeDumpFile.cpp:570-663 | the table when entry 0 is stamped: ADJACENT holds SV, DDR and CPU in order; UNSET has only null slots |
| MakeDumpMain.NoArgumentsStampNullEntryAsWritten | tools/makeRawDump/makeDumpFile.cpp:74 | as written, a run with no argument keeps proximity UNSET and entry 0 of the table is null when line 665 sets its Offset |
| MakeDumpMain.NoArgumentsFillTable | tools/makeRawDump/makeDumpFile.cpp:74 | with the parser always run, no argument gives ADJACENT and ASCENDING, and entry 0 is the first SV section |
| MakeDumpPayload.Output.Write | common/lib/Device_IO.cpp:2643-2689 | an empty buffer or a full device gives E_FAIL with nothing written; otherwise the write is clamped to the room left and succeeds, appending that prefix of the buffer |
| MakeDumpPayload.FillTestPattern | tools/makeRawDump/makeDumpFile.cpp:347-350 | every byte of the test pattern is the pattern value of its offset |
| MakeDumpPayload.TestPatternRun | tools/makeRawDump/makeDumpFile.cpp:387-409 | writing the test pattern over and over gives the payload bytes from offset 0 |
| MakeDumpPayload.FirstPiece | tools/makeRawDump/makeDumpFile.cpp:371-385 | the first block is shorter than the pattern, brings the offset to a pattern boundary, and is empty exactly when the offset is on one |
| MakeDumpPayload.PatternFromOffset | tools/makeRawDump/makeDumpFile.cpp:371-409 | the tail of the pattern from offset mod its size, followed by whole patterns, is the payload from that offset |
| MakeDumpPayload.PayloadRunAppend | tools/makeRawDump/makeDumpFile.cpp:371-409 | the payload from an offset for a + b bytes is its first a bytes followed by the payload from offset + a |
| MakeDumpPayload.ZeroRun | tools/makeRawDump/makeDumpFile.cpp:412-432 | repeating the zeroed padding buffer gives zeros |
| MakeDumpPayload.WritePattern | tools/makeRawDump/makeDumpFile.cpp:463-548 | an empty pattern or a write size 0 gives E_INVALIDARG with nothing written; otherwise the device receives the pattern repeated, and the counts and result are those of the write-loop specification |
| MakeDumpPayload.PatternWriteComplete | tools/makeRawDump/makeDumpFile.cpp:493-537 | on success exactly writeSize bytes were written and reported |
| MakeDumpPayload.PatternExactRoom | tools/makeRawDump/makeDumpFile.cpp:493-537 | with room for exactly writeSize bytes the write succeeds and writes all of them |
| MakeDumpPayload.PatternOverrun | tools/makeRawDump/makeDumpFile.cpp:493-505 | the first write is not shortened: asked for fewer bytes than the pattern on a device with room for the pattern, it writes more than asked, until the device is full, and fails |
| MakeDumpPayload.PayloadCounts | tools/makeRawDump/makeDumpFile.cpp:371-409 | the payload stage writes no more than the room, succeeds only with every payload byte written, succeeds when the room holds the payload and the payload is at least a first block plus one pattern, and gives E_INVALIDARG when the payload is exactly the first block |
| MakeDumpPayload.RunsJoin | tools/makeRawDump/makeDumpFile.cpp:371-409 | the first block followed by the repeated pattern is the payload from the offset |
| MakeDumpPayload.WriteFirstPiece | tools/makeRawDump/makeDumpFile.cpp:371-385 | off a pattern boundary, the pattern tail up to the boundary is written (clamped to the room) and subtracted from the bytes left; on a boundary nothing is written |
| MakeDumpPayload.WritePayloadData | tools/makeRawDump/makeDumpFile.cpp:371-409 | the device receives the payload bytes of the offsets written; success means the whole payload was written, guaranteed when the room holds it and it spans a first block plus one pattern; a payload of exactly the first block gives E_INVALIDARG |
| MakeDumpPayload.WritePayload | tools/makeRawDump/makeDumpFile.cpp:323-437 | the device receives payload bytes then zero padding; success needs partition output with DumpSize below the partition size, and then the payload is DumpSize - payloadOffset bytes and the padding the partition size - DumpSize; DumpSize above the partition size gives E_FAIL with nothing written; a large enough payload on a partition with room succeeds |

## Left out

- Device and file I/O (SetPos, Read, NtWriteFile, HeapAlloc) are not executed: their outcome is a parameter, and file contents are byte sequences.
- Tracing, logging and wprintf output.
- Raw2DumpReader.ReadFromDDRSectionByPhysicalAddress: the pointer truncation `(UINT32)(temp) + bytesToRead` is not modelled; the buffer position is a plain index.
- Raw2DumpReader and SvPlan do not call the DeviceIo model: for them a read of the raw dump succeeds exactly when it asks for bytes inside a file of `rawSize` bytes.
- Write failures of NtWriteFile are modelled by the dump's capacity only: a write fails exactly when it would run past `capacity` bytes.
- The signatures, padding fields and the bytes of the blob headers beyond DataSize and Tag are not modelled; a write records what it takes its bytes from.
- WriteSvSections.DumpFile.WriteAfterApReg: the HeapAlloc of the temporary buffer is the input `gotMemory`; its size, LargestSVSpecificSectionSize, is not checked against the sections read into it.
- Raw2DumpFakeHeader.FoldedParam3: the `&`, `<<` and `|` of the fold are written as remainder, product and sum, which agree because the three byte lanes are disjoint.
- SvGuidTable: the section helpers take the GUIDToName table as a parameter; WriteSvSpecific passes the constant GUID_TO_NAME.
- The CPU context and SV section contents are not modelled: a write of them records the raw dump range or context it copies.
- ConfigCheck.IsOffDumpReady: EnablePrivilege, NtQuerySystemInformation, the registry and the UEFI variable services are not called; their outcomes are the `Environment` input.
- ConfigCheck: the ENABLE_REPLAY_MODE build, which reports every dump as expected, is not modelled.
- ConfigCheck: DUMP_TYPE_FULL (1) and DUMP_TYPE_SUMMARY (2) come from a Windows header that is not part of this model.
- ConfigCheck.DumpProgress: only the IsDumpEnabled and IsDumpExpected bits of DUMP_PROGRESS are modelled; IsOffDumpReady clears the whole word, and the other bits belong to later stages.
- DeviceIo: partition selection (SetPartition, SetPartitionEntry, GetPartitionIndex, GetPartitionCount), Open, Close, OpenPhysicalDisk, ReadDiskGeometry and ReadDiskLayout call Windows device APIs; the model takes the drive layout, the selected partition and the handle's validity as fields set up by the caller.
- DeviceIo: GetCurrentPartitionType, GetCurrentPartitionName and GetCurrentPartitionGUID read partition-table strings and GUIDs that depend on those APIs.
- DeviceIo: the writing side (WriteBlocksToDevice, WriteCacheAndFlush, WriteToBlockDevice, WriteToFile, Write) is not modelled beyond SafeIo's write loop; FlushFileBuffers is not modelled, so a WriteFile that moves no byte is the only write failure.
- DeviceIo: the copy constructor, the destructor and the constructors by name or by ID alone; the one constructor modelled is Init.
- DeviceIo: the null out-pointer checks (IO_ERROR_INVALID_PARAMETER for a missing bytesRead or position pointer) have no counterpart, since the model returns its outputs.
- DeviceIo: the OS side is a byte sequence with a file pointer; ReadFile and WriteFile fail only by moving no byte at the store's end, SetFilePointerEx only for a target before 0 or past a LARGE_INTEGER, and GetLastError is the constant `osError`. Where that error could be 0, HRESULT_FROM_WIN32 makes a failed step succeed, so the success claims of ReadFromBlockDevice, ReadInPhases and their phases are stated for a nonzero `osError`.
- DeviceIo.Device.ReadFromBlockDevice: the buffer's contents after a block read are not stated (the bytes read through SafeIo are, in ReadBlocksFromDevice and CopyCached); and the caller's buffer must not be the cache (`buffer != cache`).
- DeviceIo.Device.SetIOGeometry: requires a nonzero BytesPerSector, which the block arithmetic divides by; a zero sector size from the driver is not modelled.
- DeviceIo.Device.CopyFromCache: memcpy_s is modelled as failing exactly when the bytes do not all lie in the cache.
- DeviceIo.Device.ReadAtOffset: SetPos(LARGE_INTEGER) and SetPos(ULONGLONG) are folded into it; the offset's cast to ULONGLONG is Trunc64.
- DeviceIo.Device.Read: the IO_OK recorded before the dispatch is not modelled, because every branch of the dispatch overwrites it.
- DeviceIo.Device.AllocateCache: models the corrected size guard (UlongCacheBlocks, the comparison on the true product); the 32-bit product as written is DeviceIoDefs.CacheSizeAsWritten.
- DeviceIo: m_pCache is a Dafny array whose length is CacheSize, and malloc succeeds exactly when the request fits in `heapLimit` bytes.
- DeviceSpecific.WriteDeviceSpecificInfo: DEVICE_IO's writing side is not part of this model, so the HRESULTs of SetPos and Write and Write's byte count are parameters; the pointer size of the build is taken as 8 bytes.
- DeviceSpecific.ReadDeviceSpecificInfo: on a block device the bytes the Read leaves in the buffer are not stated (as for DeviceIo.Device.ReadFromBlockDevice), so the record is a ghost output there; dataVersion is assigned and never used, and is not modelled.
- ApReg: the VFP and debug registers of the ARM CONTEXT, which the memset clears and no conversion sets, are not modelled.
- ApReg.GetAPRegLegacy: the header check of GetAPRegLegacy decodes the three ULONGs little-endian from the bytes read; the reads are DDR reads as the reader models them.
- ApReg64Walk: GetAPReg64, dumpAllARMContexts, the dump* tracing routines and UpdateContextWithAPReg64 are not modelled; the CPU status words parseDumpData inspects only select trace messages.
- ApReg64Walk.ParseDumpData: parseDumpData's own HRESULT is never set past E_FAIL and is ignored by its caller, so it is not returned; the status of both of its DDR reads is ignored, as in the source.
- ApReg64Walk: the nodes of the global list are a sequence in allocation order and pointers are indices into it (`Link`); HeapAlloc and malloc do not fail.
- ApReg64Walk: raw2dump's node comes zeroed; the offline tool's malloc leaves it uninitialised, modelled as zero bytes with a Flink that was never written (`Unset`).
- ApReg64Walk: the reads of DDR go through a function `read` of the walk's environment, which `ReadsDdr` ties to the raw2dump reader; the status of the re-read of a table with more than one entry is ignored, as in the source.
- ApReg64Walk.Walk: nested tables are walked to a depth bounded by `fuel`; deeper nesting is the outcome OutOfDepth, where the source would recurse on.
- ApReg64Walk.Walk: undefined behaviour (a write through a null prevContext, an entry read past the table's buffer) is the outcome Fault; what the source would do then is not modelled.
- ApReg64Walk.Walk: the heap buffer of a table is a byte sequence of the size read; HeapFree and free are not modelled.
- QCom32: the NtQuerySystemEnvironmentValueEx and NtSetSystemEnvironmentValueEx calls, the disk reads and the DDR reads are inputs (their status and bytes); the DDR addresses of the diag buffer reads (DataPA plus offsets into SENTINEL and DUMP_HEADER32) are not modelled.
- QCom32: a failed variable query is taken to leave IN_MEM_DATA_INFO zeroed; what the call writes on failure is not modelled.
- QCom32: an SV section read into the intermediate buffer is taken as its bytes followed by zeros; a section larger than LargestSVSpecificSectionSize, or a copy of 8 bytes out of a smaller buffer, is not modelled as the overrun it is.
- QCom32: INMEM_DIAG_BUFFER is taken at its 64-bit size (88 bytes); a 32-bit build's 80 is not modelled.
- QCom32.BuildDiagBuffer: the QC_ADDITIONAL_DATA part of the buffer (version, sc_status words, RST_STAT and PMIC_PON copies), PlatformID, AdditionalData and m_AddressOfDummyFunction are not modelled, since no modelled routine reads them; the copy of CPU_Count sc_status words into a 4-word array is not modelled.
- QCom32: the trace routines (DumpPmicPon, DumpRstStat), BuildInfoFile (XML) and the destructor's HeapFree are not modelled.
- QcomSv.QCom32.GetAPReg: keeps the CPU_STATUS words of AP_REG as m_ApReg (see Findings); the read of those words is an input of its own.
- OffdumpUtil.ReadFromDDRSectionByPhysicalAddress: advances the destination after each piece, as intended, not as written (see Findings); the source's code is modelled by ReadPlan with `advance` false.
- OffdumpUtil: READ_ANY reads off `hDisk` are taken to succeed exactly when their range lies on the disk; a short read is not modelled.
- OffdumpUtil.BuildDDRMemoryMap: with no DDR section the UINT32 sort bound wraps as raw2dump's does (see Findings); the model sorts only a non-empty map.
- OffdumpUtil.WriteToDumpByPhysicalAddress: NtWriteFile's outcome is an input; the bytes written and NtFlushBuffersFile are not modelled.
- OffdumpSearch.ISContainDumpHeader: searches with the intended bound (see Findings); the bound as written is FindHeaderAsWritten. The LONG buffer size is taken below 2^31 and non-negative.
- OffdumpMerge.MergeDDRFiles: sets each Offset to where its section's bytes start in the merged file, as intended, not base minus lowestbase as written (see Findings); the Offset as written is AsWrittenOffset.
- OffdumpMerge.MergeDDRFiles: CreateFileW, GetFileSizeEx and MergeFile's buffered copy are inputs (`createOk`, `DdrFile`); what MergeFile leaves in the merged file when it fails midway is not modelled, nor the handles, FlushFileBuffers and the progress output.
- OffdumpMerge.MergeDDRFiles: the Gap log is not modelled; it subtracts the chosen base from itself and so is always 0.
- Dumputil.cpp's other routines (partition search, header and table checks already modelled for the service and raw2dump, file extraction, the virtual address reader through the debugger engine, WriteRAWDDRToBinAndSearchHeaders, WriteSVSpecific, the CLI in ExtractWindowsDumpFromDDR) are not part of this model.
- Raw2DumpExtract64.WriteDDR64: starts each transfer at the intended address and fails on a page count mismatch, as intended, not as written (see Findings); the code as written is modelled by RunIos with `asWritten` true and by CopyStatusAsWritten.
- Raw2DumpExtract64.WriteDDR64: HeapAlloc's outcome and every NtWriteFile status are inputs (`allocOk`, `writeStatuses`, a write past the list succeeding); NtFlushBuffersFile, HeapFree and the bytes landing in the dump file are not modelled beyond the DdrWrite list.
- Raw2DumpExtract64.WriteDDR64: the one 2 MiB buffer reused by every read is modelled as a fresh zeroed buffer per read; what a failed read leaves in it is never written, so nothing observable differs.
- Raw2DumpExtract64.WriteDumpHeader64: NtWriteFile's status is an input and the header bytes are not serialised; sizeof(DUMP_HEADER64) is the constant 0x2000 from the Windows headers, which are not part of this model.
- Raw2DumpExtract64: MemoryDescriptors64 is a pointer into the header and is not kept; the log calls (including the mismatch message that reads NumberOfPages through DumpHeader32) are not modelled.
- OffdumpExtract64.GetDumpHeader64: malloc and hDisk.ReadAtOffset are inputs (`allocOk`, `readOk` and the header read); DUMP_SIGNATURE64 and DUMP_VALID_DUMP64 are the values of the Windows headers, which are not part of this model, and only the header fields the tool uses are kept. The comment above the UPDATE_IF_ZERO lines speaks of copying into the context, but the code fills the header from the context; the model follows the code.
- OffdumpExtract64.ReadFromDDRSectionByVirtualAddress64: rejects a read leaving its page, as intended, not as written (see Findings); the check as written is PageCheckAsWritten. The PhysicalAddress argument is optional in the source and always returned here.
- OffdumpExtract64.VirtualToPhysical64: the bit masks and shifts are written as division and remainder by powers of two; the ARM64_HARDWARE_PTE fields other than NotLargePage are not modelled, and a Valid bit of 0 is not checked, as in the source.
- test/offdumptool/exe/DumpExtract64.cpp's other routines (its own ValidateDDRAgaisntPhysicalMemoryBlock64, WriteDumpHeader64 and WriteDDR64, which repeat raw2dump's, GetKdDebuggerDataBlock64, ExtractWindowsDumpFile64 and UpdateContextAmd64 with its debugger-engine and dump-file writes) are not part of this model.
- BuildParams.BuildDDRMemoryMap: uses the corrected DdrMemoryMap.Classify (Findings, buildparams.cpp:1607), so two entries at Base 0 count as an overlap and give E_BAD_DATA; the test as written is DdrMemoryMap.ClassifyAsWritten, which counts them as a hole and accepts the map.
- BuildParams.SortAndCheck: its hole and overlap counts are those of the corrected Classify (Findings, buildparams.cpp:1607); as written is ClassifyAsWritten.
- BuildParams.SanityPass: classifies each neighbouring pair with the corrected Classify (Findings, buildparams.cpp:1607); as written is ClassifyAsWritten.
- BuildParamsReader.ReadFromDDRSectionByPhysicalAddress: the destination advances as an index into the buffer; the source's `temp = (PVOID)((UINT32)(temp) + bytesToRead)` cuts the pointer to 32 bits, which the model does not capture.
- Raw2DumpUtil.BuildDDRMemoryMap: uses the corrected Classify (Findings, dumputil.cpp:813) and the corrected pass bound SortPassBound (Findings, dumputil.cpp:767); as written are ClassifyAsWritten and SortPassBoundAsWritten.
- Raw2DumpUtil.SortAndMark: sorts with the corrected pass bound SortPassBound, so an empty map is not sorted (Findings, dumputil.cpp:767), and marks with the corrected Classify (Findings, dumputil.cpp:813); as written are SortPassBoundAsWritten and ClassifyAsWritten.
- Raw2DumpUtil.MarkingSanityPass: its hole and overlap counts and Contiguous marks are those of the corrected Classify (Findings, dumputil.cpp:813); as written is ClassifyAsWritten.
- Raw2DumpUtil.SanityLoop: counts with the corrected Classify (Findings, dumputil.cpp:813), so a pair whose second Base is 0 is not handled as lines 804-826 handle it; as written is ClassifyAsWritten.
- Raw2DumpUtil.SanityStep: classifies its pair with the corrected Classify (Findings, dumputil.cpp:813); as written is ClassifyAsWritten.
- OffdumpUtil.BuildDDRMemoryMap: marks and counts with the corrected Classify (Findings, Dumputil.cpp:591); as written is ClassifyAsWritten, which counts two entries at Base 0 as a hole.
- Raw2DumpCompleteMap.BuildCompleteMemoryMap: the UINT32 allocation size NumberOfRuns * 4 * sizeof(DDR_MEMORY_MAP) (dumputil.cpp:3073-3076) is not modelled; it wraps for more than 22,369,621 runs, and the allocation's outcome is the input `gotMemory`.
- OffdumpUtil.BuildDDRMemoryMap: the UINT32 allocation size sizeof(DDR_MEMORY_MAP) * DDRSectionCount (Dumputil.cpp:486) is not modelled; malloc's outcome is the input `allocOk`, and a map that is allocated has room for every DDR section.
- QcomSv.QCom32.GetSVSpecificInfo: the `(UINT32)` cast of LargestSVSpecificSectionSize in the buffer allocation (qcom32.cpp:110) is not modelled; the allocation's outcome is an input.
- makeRawDump main, OpenOutput, WriteSections, DumpConfigInfo, DumpParserWarnings and DumpVectorTable (tools/makeRawDump/makeDumpFile.cpp:56-303, 979-1178): they open files and disks through DEVICE_IO, print, and write the header and table records byte for byte; the model stops at the values they write. Of main, only the parse guard and the table it leads to are modelled (MakeDumpMain and Findings): main calls ProcessCommandArguments only when there is an argument (line 74). main's own setup (the default DDR count and size, the table offset and the first ResizeSectionsList) is not modelled.
- MakeDumpFile.SortDdrSectionTable: its requires excludes DDR_ORDER_RANDOM. sortDDRSectionTable accepts that order and hands the list to randomizeVector (tools/makeRawDump/makeDumpFile.cpp:826-828), whose shuffle depends on rand() and is not modelled. CreateFullSectionsTable carries the same exclusion.
- randomizeVector, the RANDOM order and the SCATTER layout (tools/makeRawDump/makeDumpFile.cpp:601-661, 912-962): they depend on rand(). SCATTER also copies `sectionCPU[idxDDR++]` where a DDR index is meant (line 631); neither is modelled.
- CreateFullSectionsTable: stated for the ADJACENT layout only, and for the state main gives it: every list filled by UpdateDDRWithDefault and UpdateSVWithDefault, entry 0 present (the code dereferences it), the order not RANDOM, and a count that fits a UINT32. The CPU list is taken as given; nothing in the parser fills it.
- SortVector: the empty vector is excluded by its requires, since `n - 1` wraps there and `at(0)` throws; so is a null entry, which the comparison dereferences. Its null-vector E_INVALIDARG path is not modelled.
- CopySectionTable: its null-argument E_INVALIDARG path is not modelled.
- GetSectionSize: its null-argument E_INVALIDARG path (makeHeader.cpp:97-100) is not modelled; a list is a value and is always there.
- PopulateRawDumpFileHeader: its null-config E_INVALIDARG path (makeHeader.cpp:40-43) is not modelled.
- UpdateDDRWithDefault: its null-list E_POINTER path (processDDR.cpp:82-85) is not modelled; the model also requires at most 2^31 entries, since "%03d" prints a larger id as a negative number.
- MakeDDRNameString: ids of 2^31 and above, which "%d" prints negative, are not modelled; the null-name check is not either (a name is a value).
- UpdateSVWithDefault: the `new` failure (E_OUTOFMEMORY) is not modelled.
- MakeDumpDefs.Resize: always succeeds. ResizeSectionsList catches a failed `resize` and returns E_OUTOFMEMORY (tools/makeRawDump/processArgs.cpp:277-284); the model has no allocation limit, so that path is not modelled. Its callers ProcessArgs.StoreDdrSection, ProcessArgs.ProcessDDRParameters and ProcessArgs.ProcessDDRCount therefore never return E_OUTOFMEMORY. For example, /DDR:2000000000:0x0:0x1000 gives S_OK and a list of 2,000,000,001 entries. The source has already set DDR_SectionCount to id + 1 (line 369) and returns E_OUTOFMEMORY when the allocation fails.
- ProcessArgs.StoreDdrSection: never gives E_OUTOFMEMORY, because the resize it calls always succeeds (see MakeDumpDefs.Resize above).
- ProcessArgs.ProcessDDRParameters: never gives E_OUTOFMEMORY from the resize of processArgs.cpp:370 (see MakeDumpDefs.Resize above).
- ProcessArgs.ProcessDDRCount: never gives E_OUTOFMEMORY from the resize of processArgs.cpp:490 (see MakeDumpDefs.Resize above).
- ProcessArgs: the malloc of the argument copy and its E_OUTOFMEMORY, and every `new RAW_DUMP_SECTION_HEADER` failure, are not modelled; section lists are lists of values, so the pointer aliasing of the vectors is not captured.
- Output.Write: the device is a byte sequence with a capacity, and a write is appended at its end; DEVICE_IO's positioning, block alignment and partition choice are not part of this model.
- WritePattern: the null-argument check, the progress printf, and the no-op write condition on 0x15578c8 are not modelled; on E_INVALIDARG the source leaves *bytesWritten unset, and the model returns 0.
- WritePayload: the null-argument check and its printf output are not modelled; the global testPattern buffer is a fresh array filled on every call.

## Findings

| source | as written | input that shows it | evidently intended | confidence | as-written member | corrected member |
|---|---|---|---|---|---|---|
| OffDmpSvc/lib/buildparams.cpp:1607 | `previousEnd < currentStart - 1` is a UINT64 expression, so a next Base of 0 wraps to 2^64 - 1 | two sorted entries both with Base 0: counted as a hole, and overlaps go unreported | a hole only when the previous End + 1 is below the next Base | not executed | DdrMemoryMap.ClassifyAsWrittenMissesOverlapAtZero | DdrMemoryMap.Classify |
| raw2dump/src/dumputil.cpp:1367 | after a partial read `Buffer` is advanced but the next read goes through `temp` | a read spanning two contiguous sections: both pieces land at the start of the buffer | the second piece lands after the first | not executed | Raw2DumpReader.AsWrittenSpanningReadOverwrites | Raw2DumpReader.ReadPlanCoversRequest |
| raw2dump/src/dumputil.cpp:767 | the sort's bound `DDRMemoryMapCount - 1` is UINT32 | a table with no DDR section (which its VerifyRawDumpSectionTable accepts): the sort reads entries 0 and 1 of an empty map | no passes over an empty map | not executed | Raw2DumpUtil.EmptyMapSortReadsPastEnd | Raw2DumpUtil.SortPassBound |
| raw2dump/src/dumputil.cpp:420-430 | a header read of zero bytes leaves for the exit with the read's successful HRESULT | an empty raw dump file: S_OK, with no header check made | a read of zero bytes is a failure | not executed | Raw2DumpUtil.EmptyFileHeaderAccepted | Raw2DumpUtil.VerifyRawDumpHeader |
| raw2dump/src/dumputil.cpp:3237 | the final entry's Size is added to TotalNonOSDDRSizeInBytes whatever its type | one DDR entry [0, 0x3FFF_FFFF] and one run of its first 0x1000_0000 bytes: the tail is typed MEMORY_NA yet 0x3000_0000 bytes are counted as non-OS, so the non-OS blob's size no longer matches the non-OS entries written | add the Size only for a MEMORY_NONOS entry, as the loop does at lines 3191-3193 | medium, not executed | Raw2DumpCompleteMap.AsWrittenCountsUnavailableTail | Raw2DumpCompleteMap.CompleteMapNonOsTotal |
| raw2dump/src/WriteSVSections.cpp:180-183 | a read that gets no byte leaves through the `0 == bytesProcessed` test with the read's successful status, and a short read is not tested at all | a read of 16 bytes at offset 0x100 of a 0x100-byte rawdump.bin: STATUS_SUCCESS with nothing read; at offset 0xF8: STATUS_SUCCESS with 8 bytes | a read that does not get all its bytes fails | not executed | SvPlan.AsWrittenShortReadSucceeds | WriteSvSections.DumpFile.ReadFromRawDump |
| common/lib/Device_IO.cpp:434-436 | `m_BlockSize * m_CacheBlockCount` is a 32-bit product, widened only after it has wrapped | a 1 MiB block size with the default 0x2000 blocks: the product wraps to 0, the guard passes and a cache of 0 bytes is allocated for 0x2000 blocks | compare the true product with MAX_ULONG, and keep MAX_ULONG / BlockSize blocks when it is larger | not executed | DeviceIoDefs.CacheSizeAsWrittenWraps | DeviceIo.Device.AllocateCache |
| common/lib/Device_IO.cpp:1818 | every ReadFile (and, at 1821, every WriteFile) is handed `buffer`, not the advanced `pBuffer` | a plain-file read of MAX_DWORD + 1 bytes: the second ReadFile's byte lands at offset 0 of the buffer, which then holds byte MAX_DWORD of the file | each chunk goes to the buffer at the bytes already moved | not executed | DeviceIoDefs.SafeReadAsWrittenOverwritesStart | DeviceIo.Device.SafeIo |
| common/lib/Device_IO.cpp:1529 | the EOF case of SetIoPosition stores the partition's block count as the byte position | SetPos(0x1_0000) on a 64 KiB partition of 4 KiB blocks: IOCurPos becomes 16, inside the partition, and the next Read starts at byte 16 | IOCurPos at the partition's end, its size in bytes | not executed | DeviceIoDefs.EofPositionAsWrittenInside | DeviceIo.Device.SetBlockPosition |
| common/lib/Device_IO.cpp:2052-2060 | phase 3 copies from CacheCurOffset of whatever valid cache CacheRawBlocks keeps, without checking that the copy fits in it | a 16 MiB read then a 32 MiB read from the start of a 256 MiB partition with a 32 MiB cache: the second copies 32 MiB from offset 16 MiB, 16 MiB past the cache's end | re-read the cache at the position when too few bytes remain in it | not executed | DeviceIoDefs.Phase3CopyAsWrittenOverruns | DeviceIo.Device.ReadPhase3 |
| raw2dump/src/apreg64.cpp:117-136 | when no section is named OCIMEM.BIN the search loop leaves `index` at SectionsCount, and the offset is still taken from `RawDumpSectionTable[index]` | a raw dump whose section table has no OCIMEM.BIN entry: the entry one past the table is read | fail with E_FAIL without reading, as the E_UNEXPECTED set on a match suggests | not executed | ApReg64.MissingOcimemReadsPastTable | ApReg64.GetApreg64AddrFromOcimem |
| raw2dump/src/apreg64.cpp:277-296 | prevContext is local to each call of parseDumpTable, so a nested call starts with a null prevContext while numProcressors is already nonzero, and `prevContext->Flink` writes through null | a table whose first entry is a CPU context and whose second is a TABLE entry for a table holding one more CPU context | each new node linked after the list's end (the listEnd the list already holds) | not executed | ApReg64Walk.NestedTableFaultsAsWritten | ApReg64Walk.NestedTableChainsAtEnd |
| test/offdumptool/exe/apreg64.cpp:303-316 | the `prevContext != nullptr` guard skips the linking and the parse of a nested call's CPU context, but the node is still counted | the same two tables: numProcressors is 2, the head's Flink leads back to the head, and the second node is never filled | each new node linked after the list's end and filled | not executed | ApReg64Walk.NestedTableOrphansNodeAsWritten | ApReg64Walk.NestedTableChainsAtEnd |
| OffDmpSvc/qcom/qcom32.cpp:676-682 | m_ApReg is set to null in the constructor and in GetAPReg and never assigned, yet BuildBugCheckParams (and BuildDiagBuffer, lines 529-538) read CPU_Count and the sc_status words through it once AP_REG is present | an AP_REG header with the legacy magic at a valid address and RST_STAT byte 0 equal to 0x2: CPU_Count is read through a null pointer | GetAPReg keeps the AP_REG it read (header and CPU_STATUS words) in m_ApReg, so a present AP_REG can be walked | not executed | QcomSv.LegacyApRegNullAsWritten | QcomSv.QCom32.GetAPReg |
| test/offdumptool/exe/Dumputil.cpp:864 | the header search runs while `i < buffersize - magicstringlength`, so the last position that leaves room for the 32 bytes is never tried | a 32-byte buffer holding the magic string and PAGEDUMP: no header is found | `i <= buffersize - magicstringlength`, trying every position where magic and signature fit | low, not executed | OffdumpSearch.AsWrittenMissesHeaderAtEnd | OffdumpSearch.ISContainDumpHeader |
| test/offdumptool/exe/Dumputil.cpp:746 | after a partial read `Buffer` is advanced but the next read goes through `temp` | a read spanning two contiguous sections: both pieces land at the start of the buffer | the second piece lands after the first | not executed | OffdumpUtil.AsWrittenSpanningReadOverwrites | OffdumpUtil.ReadCoversRequest |
| test/offdumptool/exe/Dumputil.cpp:2338-2343 | each map Offset is the section's base minus lowestbase, while MergeFile appends the files with nothing in between | /DDR sections at 0 and 2 of one byte each: the merged file has 2 bytes and the second section's Offset is 2, past its byte at 1 | each Offset is where the section's bytes start in the merged file (the sizes merged before it) | medium, not executed | OffdumpMerge.AsWrittenOffsetWithHole | OffdumpMerge.EntriesLocateSections |
| raw2dump/src/DumpExtract64.cpp:430 | `startPA = basePA + io * ioSize` multiplies two UINT32 values before widening, and uses the previous transfer's size | a memory run of 0x10_0001 pages (4 GiB and one page) at address 0: transfer 2048 starts at 0, so the run's first 2 MiB are copied again where the bytes at 4 GiB belong | the transfer's start is io buffers past the run's base, computed in 64 bits | not executed | Raw2DumpExtract64.AsWrittenRereadsAfter4GiB | Raw2DumpExtract64.RunTiles |
| raw2dump/src/DumpExtract64.cpp:471-476 | a page count mismatch leaves by `goto Exit` with `status` still holding the last NtWriteFile's success | a descriptor with NumberOfPages 2 and a single run of one page that reads back: STATUS_SUCCESS although one page is missing | a mismatch fails | not executed | Raw2DumpExtract64.AsWrittenAcceptsMissingPage | Raw2DumpExtract64.DescriptorPagesDecide |
| test/offdumptool/exe/DumpExtract64.cpp:688-700 | the page check compares VirtualAddress + Length - 1 with VirtualAddress + 0x1000, which bounds the length to a page but not the read to VA's page; only the start is translated, and Length bytes are then read from that physical address | a read of 16 bytes at virtual address 0xFF8: accepted, and its last 8 bytes come from the physical page after the first one's, not from the page 0x1000 maps to | fail any read that leaves VA's page (its offset in the page plus Length above 0x1000), as the comment above the check says | medium, not executed | OffdumpExtract64.AsWrittenAcceptsPageCrossing | OffdumpExtract64.ReadFromDDRSectionByVirtualAddress64 |
| raw2dump/src/dumputil.cpp:813 | the same UINT64 `previousEnd < currentStart - 1` in raw2dump's marking pass | two sorted entries both with Base 0: counted as fragmentation, not marked Contiguous, and the overlap goes unreported, so the map is accepted | a hole only when the previous End + 1 is below the next Base | not executed | DdrMemoryMap.ClassifyAsWrittenMissesOverlapAtZero | DdrMemoryMap.Classify |
| test/offdumptool/exe/Dumputil.cpp:591 | the same UINT64 `previousEnd < currentStart - 1` in the offline tool's marking pass | two sorted entries both with Base 0: counted as a hole and the map is accepted | a hole only when the previous End + 1 is below the next Base | not executed | DdrMemoryMap.ClassifyAsWrittenMissesOverlapAtZero | DdrMemoryMap.Classify |
| tools/makeRawDump/processArgs.cpp:366-374 | the guard `sectionID >= size()` compares an INT with a size_t, so a negative id, converted, always passes it; the count becomes id + 1, the resize keeps the list, and the store goes to index id | /DDR:-1:0x0:0x1000 on the 2 default entries: DDR_SectionCount becomes 0 and sectionDDR[-1] is written | refuse a negative id with E_INVALIDARG | not executed | ProcessArgs.DdrMinusOneAsWritten | ProcessArgs.StoreDdrSection |
| tools/makeRawDump/makeDumpFile.cpp:74 | ProcessCommandArguments, which sets the defaults, runs only when argc > 1 | `makeRawDump` with no argument: DDR_Proximity stays UNSET, CreateFullSectionsTable copies no section, and `dumpFileSections[0]->Offset` (line 665) is written through a null pointer | a run with no argument uses the defaults: ADJACENT, ASCENDING, six cores | not executed | MakeDumpMain.NoArgumentsStampNullEntryAsWritten | MakeDumpMain.NoArgumentsFillTable |
