// raw2dump's extraction of a 64-bit Windows dump (raw2dump/src/DumpExtract64.cpp):
// the check of the dump header's physical memory runs against the DDR map,
// the DUMP_HEADER64 written at the start of the dump, and the copy of DDR
// memory into the dump, run by run, in chunks of one buffer.
module Raw2DumpExtract64 {
  import opened Machine
  import opened Status
  import opened DdrMemoryMap
  import opened Raw2DumpUtil
  import RR = Raw2DumpReader
  import CM = Raw2DumpCompleteMap

  /** DEFAULT_DMP_BUF_SZ: the 2 MiB intermediate buffer of the DDR copy. */
  const DEFAULT_DMP_BUF_SZ: u32 := 0x20_0000

  /** sizeof(DUMP_HEADER64) in the Windows headers: two pages. */
  const DUMP_HEADER64_SIZE: u32 := 0x2000

  /** The fields of DUMP_HEADER64 the extraction reads or writes. */
  datatype DumpHeader64 = DumpHeader64(
    requiredDumpSpace: u64,
    bugCheckCode: u32,
    bugCheckParameter1: u64,
    bugCheckParameter2: u64,
    bugCheckParameter3: u64,
    bugCheckParameter4: u64,
    secondaryDataState: NtStatus,
    physicalMemoryBlock: RR.PhysicalMemoryDescriptor)

  /**
   * DMP_CONTEXT for the 64-bit extraction: the fields shared with the rest
   * of raw2dump, the Windows dump header, the dump file offset
   * (WindowsDumpFileOffset) and the fields only these routines read.
   */
  datatype Dump64Context = Dump64Context(
    dmp: DmpContext,
    dumpHeader64: DumpHeader64,
    windowsDumpFileOffset: u64,
    actualDumpFileUsedInBytes: u64,
    bugCheckCode: u32,
    bugCheckParam4: u64)

  // ------------------------------------------------------ validation

  /**
   * ValidateDDRAgainstPhysicalMemoryBlock64. The size the descriptor claims
   * (NumberOfPages * PAGE_SIZE in UINT64) is stored in the context; a size
   * above the DDR total is only logged, so the status is decided by the
   * runs alone: STATUS_SUCCESS when the walk over the DDRSectionCount map
   * entries accepts every run, else STATUS_BAD_DATA.
   */
  method ValidateDDRAgainstPhysicalMemoryBlock64(c: Dump64Context) returns (status: NtStatus, c': Dump64Context)
    requires c.dmp.ddrSectionCount as nat <= |c.dmp.ddrMemoryMap|
    requires c.dumpHeader64.physicalMemoryBlock.numberOfRuns as nat <= |c.dumpHeader64.physicalMemoryBlock.runs|
    ensures var d := c.dumpHeader64.physicalMemoryBlock;
            c' == c.(dmp := c.dmp.(sizeAccordingToMemoryDescriptors := CM.PagesToBytes(d.numberOfPages)))
    ensures var d := c.dumpHeader64.physicalMemoryBlock;
            status == STATUS_SUCCESS <==>
              forall k :: 0 <= k < d.numberOfRuns as nat ==>
                RR.RunAccepted(c.dmp.ddrMemoryMap, c.dmp.ddrSectionCount as nat, d.runs[k], true)
    ensures status == STATUS_SUCCESS || status == STATUS_BAD_DATA
  {
    var d := c.dumpHeader64.physicalMemoryBlock;
    var memorySizeFromPD := CM.PagesToBytes(d.numberOfPages);
    c' := c.(dmp := c.dmp.(sizeAccordingToMemoryDescriptors := memorySizeFromPD));
    if memorySizeFromPD > c.dmp.totalDDRSizeInBytes {
      status := STATUS_BAD_DATA;   // overwritten below: the exit is disabled
    }
    var ok := RR.CheckRuns(c.dmp.ddrMemoryMap, c.dmp.ddrSectionCount as nat, d.runs, d.numberOfRuns as nat, true);
    status := if ok then STATUS_SUCCESS else STATUS_BAD_DATA;
  }

  /**
   * The run starts in map entry i0 and ends in entry j, i0 <= j, and every
   * entry after i0 up to j is marked Contiguous.
   */
  predicate RunMapped(m: seq<Entry>, count: nat, r: RR.MemoryRun)
    requires count <= |m|
  {
    exists i0, j :: 0 <= i0 <= j < count && m[i0].base <= RR.RunStart(r, true) <= m[i0].end
                    && m[j].base <= RR.RunEnd(r, true) <= m[j].end && RR.ContiguousThrough(m, i0, j)
  }

  /**
   * What the 64-bit validation guarantees of every run of an accepted
   * descriptor: it starts in a DDR map entry and ends in the same or a
   * later one, every entry in between marked Contiguous.
   */
  lemma ValidatedRunsAreMapped64(m: seq<Entry>, count: nat, d: RR.PhysicalMemoryDescriptor)
    requires count <= |m| && count < U32_LIMIT && d.numberOfRuns as nat <= |d.runs|
    requires forall k :: 0 <= k < d.numberOfRuns as nat ==> RR.RunAccepted(m, count, d.runs[k], true)
    ensures forall k :: 0 <= k < d.numberOfRuns as nat ==> RunMapped(m, count, d.runs[k])
  {
    forall k | 0 <= k < d.numberOfRuns as nat
      ensures RunMapped(m, count, d.runs[k])
    {
      RR.AcceptedRunIsMapped(m, count, d.runs[k], true);
    }
  }

  // ------------------------------------------------------ dump header

  /**
   * WriteDumpHeader64. The dump offset is reset to 0; the header gets
   * RequiredDumpSpace from ActualDumpFileUsedInBytes, the bug check code and
   * the four parameters each cast to ULONG (only the low 32 bits are kept
   * although the header fields are 64-bit), and SecondaryDataState is set
   * to STATUS_SUCCESS when there are SV or CPU context sections. The header
   * is written at offset 0 (`writeStatus` is what NtWriteFile returns); on
   * success both the dump offset and DDRFileOffset are moved past it.
   */
  method WriteDumpHeader64(c: Dump64Context, writeStatus: NtStatus) returns (status: NtStatus, c': Dump64Context)
    ensures var h := c'.dumpHeader64;
            h.requiredDumpSpace == c.actualDumpFileUsedInBytes && h.bugCheckCode == c.bugCheckCode
            && h.bugCheckParameter1 == c.dmp.bugCheckParam1 % U32_LIMIT
            && h.bugCheckParameter2 == c.dmp.bugCheckParam2 % U32_LIMIT
            && h.bugCheckParameter3 == c.dmp.bugCheckParam3 % U32_LIMIT
            && h.bugCheckParameter4 == c.bugCheckParam4 % U32_LIMIT
            && h.physicalMemoryBlock == c.dumpHeader64.physicalMemoryBlock
    ensures c'.dumpHeader64.secondaryDataState ==
              if c.dmp.svSectionCount > 0 || c.dmp.cpuContextSectionCount > 0 then STATUS_SUCCESS
              else c.dumpHeader64.secondaryDataState
    ensures NtSuccess(writeStatus) ==>
              status == STATUS_SUCCESS && c'.windowsDumpFileOffset == DUMP_HEADER64_SIZE as u64
              && c'.dmp == c.dmp.(ddrFileOffset := DUMP_HEADER64_SIZE as u64)
    ensures !NtSuccess(writeStatus) ==> status == writeStatus && c'.windowsDumpFileOffset == 0 && c'.dmp == c.dmp
    ensures c'.actualDumpFileUsedInBytes == c.actualDumpFileUsedInBytes && c'.bugCheckCode == c.bugCheckCode
            && c'.bugCheckParam4 == c.bugCheckParam4
  {
    c' := c.(windowsDumpFileOffset := 0);
    var h := c.dumpHeader64.(requiredDumpSpace := c.actualDumpFileUsedInBytes,
                             bugCheckCode := c.bugCheckCode,
                             bugCheckParameter1 := Trunc32(c.dmp.bugCheckParam1),
                             bugCheckParameter2 := Trunc32(c.dmp.bugCheckParam2),
                             bugCheckParameter3 := Trunc32(c.dmp.bugCheckParam3),
                             bugCheckParameter4 := Trunc32(c.bugCheckParam4));
    if c.dmp.svSectionCount > 0 || c.dmp.cpuContextSectionCount > 0 {
      h := h.(secondaryDataState := STATUS_SUCCESS);
    }
    c' := c'.(dumpHeader64 := h);
    if !NtSuccess(writeStatus) {
      return writeStatus, c';
    }
    var offset := Add64(c'.windowsDumpFileOffset, DUMP_HEADER64_SIZE as u64);
    c' := c'.(windowsDumpFileOffset := offset, dmp := c'.dmp.(ddrFileOffset := offset));
    status := STATUS_SUCCESS;
  }

  // ------------------------------------------------------ chunk plan

  /** One transfer of the DDR copy: `size` bytes read at physical address startPA. */
  datatype Io = Io(startPA: u64, size: u32)

  /**
   * ioCountPerRun: runSize / buffersize in LONGLONG arithmetic (C division,
   * truncating toward zero) cast to UINT32, plus one for a remainder: the
   * number of buffers the run needs.
   */
  function IoCount(runSize: u64): (n: u32)
    ensures runSize <= U32_MAX as int * DEFAULT_DMP_BUF_SZ as int ==>
              n as int == (runSize + DEFAULT_DMP_BUF_SZ as int - 1) / DEFAULT_DMP_BUF_SZ as int
  {
    var s := ToSigned64(runSize);
    var b := DEFAULT_DMP_BUF_SZ as int;
    if s >= 0 then Add32(Trunc32(s / b), if s % b > 0 then 1 else 0)
    else Trunc32(-((-s) / b))
  }

  /** ioSize: the bytes left in the run, PageRemain * PAGE_SIZE in UINT64, but at most one buffer. */
  function ChunkSize(pageRemain: u64): (size: u32)
    ensures size <= DEFAULT_DMP_BUF_SZ
    ensures pageRemain < 0x200 ==> size as int == pageRemain * PAGE_SIZE
    ensures 0x200 <= pageRemain < 0x10_0000_0000_0000 ==> size == DEFAULT_DMP_BUF_SZ
  {
    var bytes := Mul64(pageRemain, PAGE_SIZE);
    if bytes < DEFAULT_DMP_BUF_SZ as int then bytes as u32 else DEFAULT_DMP_BUF_SZ
  }

  /**
   * startPA of transfer `io` of a run at basePA. As written it is
   * basePA + io * ioSize with the UINT32 product of io and the previous
   * transfer's size; the intended address is io buffers past basePA.
   */
  function ChunkStart(basePA: u64, io: u32, prevSize: u32, asWritten: bool): u64
  {
    if asWritten then Add64(basePA, Mul32(io, prevSize))
    else Add64(basePA, io as int * DEFAULT_DMP_BUF_SZ as int)
  }

  /**
   * The transfers of one run from transfer `io` on, with PageRemain pages
   * left and the previous transfer's size: the inner loop of WriteDDR64
   * when every read and write succeeds.
   */
  function RunPlan(basePA: u64, pageRemain: u64, ioCount: u32, io: u32, prevSize: u32, asWritten: bool): (ios: seq<Io>)
    ensures |ios| == if io <= ioCount then ioCount - io else 0
    decreases ioCount - io
  {
    if io >= ioCount then []
    else
      var size := ChunkSize(pageRemain);
      [Io(ChunkStart(basePA, io, prevSize, asWritten), size)]
        + RunPlan(basePA, Sub64(pageRemain, size as int / PAGE_SIZE), ioCount, io + 1, size, asWritten)
  }

  /** The transfers of one run: from BasePage * PAGE_SIZE, PageCount pages, in IoCount(PageCount * PAGE_SIZE) transfers. */
  function RunIos(r: RR.MemoryRun, asWritten: bool): seq<Io>
  {
    RunPlan(RR.RunStart(r, true), r.pageCount, IoCount(RR.RunLength(r, true)), 0, 0, asWritten)
  }

  /** The transfers of the first k runs, in order. */
  function Plan(runs: seq<RR.MemoryRun>, k: nat, asWritten: bool): seq<Io>
    requires k <= |runs|
  {
    if k == 0 then [] else Plan(runs, k - 1, asWritten) + RunIos(runs[k - 1], asWritten)
  }

  // ------------------------------------------------------ the copy

  /** One NtWriteFile of the copy: the bytes read at startPA, written at the dump offset. */
  datatype DdrWrite = DdrWrite(offset: u64, startPA: u64, data: seq<u8>)

  /**
   * The copy's progress: the status of the read or write that failed, if
   * one did; the writes made; the dump offset; bytesWritten; and the status
   * variable, which holds what the last write returned.
   */
  datatype Copy = Copy(failed: Option<NtStatus>, writes: seq<DdrWrite>, offset: u64, bytesWritten: u64, lastStatus: NtStatus)

  /** The reads of the copy: raw2dump's reader by physical address into a zeroed buffer. */
  function DdrReader(ctx: DmpContext, rawFile: seq<u8>): Io -> (NtStatus, seq<u8>)
    requires ctx.ddrMemoryMapCount as nat <= |ctx.ddrMemoryMap|
  {
    (x: Io) => RR.DdrRead(ctx, rawFile, x.startPA, x.size)
  }

  /** The state before the first transfer: the status variable still holds STATUS_UNSUCCESSFUL. */
  function CopyStart(offset: u64): Copy
  {
    Copy(None, [], offset, 0, STATUS_UNSUCCESSFUL)
  }

  /** What the j-th NtWriteFile returns; writes past the given list succeed. */
  function WriteStatusAt(writeStatuses: seq<NtStatus>, j: nat): NtStatus
  {
    if j < |writeStatuses| then writeStatuses[j] else STATUS_SUCCESS
  }

  /**
   * One transfer: read x.size bytes at x.startPA through the DDR reader,
   * then write them at the dump offset. A failed read or write ends the
   * copy; otherwise the offset and bytesWritten grow by x.size.
   */
  function CopyStep(read: Io -> (NtStatus, seq<u8>), writeStatuses: seq<NtStatus>, c: Copy, x: Io): Copy
  {
    if c.failed.Some? then c
    else
      var rd := read(x);
      if !NtSuccess(rd.0) then c.(failed := Some(rd.0))
      else
        var ws := WriteStatusAt(writeStatuses, |c.writes|);
        if !NtSuccess(ws) then c.(failed := Some(ws))
        else Copy(None, c.writes + [DdrWrite(c.offset, x.startPA, rd.1)],
                  Add64(c.offset, x.size), Add64(c.bytesWritten, x.size), ws)
  }

  /** The copy of the transfers ios from state c0. */
  function CopyAll(read: Io -> (NtStatus, seq<u8>), writeStatuses: seq<NtStatus>, c0: Copy, ios: seq<Io>): Copy
    decreases |ios|
  {
    if ios == [] then c0
    else CopyStep(read, writeStatuses, CopyAll(read, writeStatuses, c0, ios[..|ios| - 1]), ios[|ios| - 1])
  }

  /** bytesWritten / PAGE_SIZE in LONGLONG arithmetic, compared as ULONG64. */
  function PagesWritten(bytesWritten: u64): (pages: u64)
    ensures bytesWritten < 0x8000_0000_0000_0000 ==> pages as int == bytesWritten / PAGE_SIZE
  {
    var s := ToSigned64(bytesWritten);
    if s >= 0 then s / PAGE_SIZE else Trunc64(-((-s) / PAGE_SIZE))
  }

  /** WriteDDR64's status as intended: a failed transfer's status, else a page count mismatch fails. */
  function CopyStatus(c: Copy, numberOfPages: u64): NtStatus
  {
    match c.failed
    case Some(s) => s
    case None => if PagesWritten(c.bytesWritten) != numberOfPages then STATUS_UNSUCCESSFUL else STATUS_SUCCESS
  }

  /** WriteDDR64's status as written: a mismatch leaves by `goto Exit` with the status of the last write. */
  function CopyStatusAsWritten(c: Copy, numberOfPages: u64): NtStatus
  {
    match c.failed
    case Some(s) => s
    case None => if PagesWritten(c.bytesWritten) != numberOfPages then c.lastStatus else STATUS_SUCCESS
  }

  /**
   * WriteDDR64 with the intended start address of each transfer and the
   * intended failure on a page count mismatch. `allocOk` says whether the
   * buffer allocation succeeded, `writeStatuses` what the NtWriteFile calls
   * return; the result is the copy of every run's transfers, stopped at the
   * first failure, with the dump offset moved past what was written.
   */
  method WriteDDR64(c: Dump64Context, rawFile: seq<u8>, allocOk: bool, writeStatuses: seq<NtStatus>)
    returns (status: NtStatus, c': Dump64Context, writes: seq<DdrWrite>)
    requires c.dmp.ddrMemoryMapCount as nat <= |c.dmp.ddrMemoryMap|
    requires c.dumpHeader64.physicalMemoryBlock.numberOfRuns as nat <= |c.dumpHeader64.physicalMemoryBlock.runs|
    ensures !allocOk ==> status == STATUS_NO_MEMORY && c' == c && writes == []
    ensures allocOk ==>
              var d := c.dumpHeader64.physicalMemoryBlock;
              var r := CopyAll(DdrReader(c.dmp, rawFile), writeStatuses, CopyStart(c.windowsDumpFileOffset),
                               Plan(d.runs, d.numberOfRuns as nat, false));
              status == CopyStatus(r, d.numberOfPages) && writes == r.writes
              && c' == c.(windowsDumpFileOffset := r.offset)
  {
    if !allocOk {
      return STATUS_NO_MEMORY, c, [];
    }
    var d := c.dumpHeader64.physicalMemoryBlock;
    var st := CopyRuns(c.dmp, rawFile, writeStatuses, d.runs, d.numberOfRuns as nat, c.windowsDumpFileOffset);
    status := match st.failed
      case Some(s) => s
      case None => if PagesWritten(st.bytesWritten) != d.numberOfPages then STATUS_UNSUCCESSFUL else STATUS_SUCCESS;
    c' := c.(windowsDumpFileOffset := st.offset);
    writes := st.writes;
  }

  /**
   * The outer loop of WriteDDR64: the runs in order, each copied by
   * CopyRun, stopping at the first failed transfer.
   */
  method CopyRuns(ctx: DmpContext, rawFile: seq<u8>, writeStatuses: seq<NtStatus>,
                  runs: seq<RR.MemoryRun>, n: nat, offset: u64)
    returns (st: Copy)
    requires ctx.ddrMemoryMapCount as nat <= |ctx.ddrMemoryMap| && n <= |runs|
    ensures st == CopyAll(DdrReader(ctx, rawFile), writeStatuses, CopyStart(offset), Plan(runs, n, false))
  {
    ghost var read := DdrReader(ctx, rawFile);
    st := CopyStart(offset);
    var index := 0;
    while index < n
      invariant index <= n && st.failed.None?
      invariant CopyAll(read, writeStatuses, CopyStart(offset), Plan(runs, index, false)) == st
    {
      RunExtendsCopy(read, writeStatuses, CopyStart(offset), runs, index);
      st := CopyRun(ctx, rawFile, writeStatuses, runs[index], st);
      if st.failed.Some? {
        FailedCopyIsFinal(read, writeStatuses, CopyStart(offset), runs, index + 1, n);
        return;
      }
      index := index + 1;
    }
  }

  /**
   * The inner loop of WriteDDR64 for one run: its transfers from BasePage
   * * PAGE_SIZE, each of ChunkSize(PageRemain) bytes, PageRemain dropping
   * by the pages copied, until IoCount transfers are done or one fails.
   */
  method CopyRun(ctx: DmpContext, rawFile: seq<u8>, writeStatuses: seq<NtStatus>, run: RR.MemoryRun, st0: Copy)
    returns (st: Copy)
    requires ctx.ddrMemoryMapCount as nat <= |ctx.ddrMemoryMap| && st0.failed.None?
    ensures st == CopyAll(DdrReader(ctx, rawFile), writeStatuses, st0, RunIos(run, false))
  {
    ghost var read := DdrReader(ctx, rawFile);
    var basePA := RR.RunStart(run, true);
    var pageRemain := run.pageCount;
    var ioCount := IoCount(RR.RunLength(run, true));
    ghost var done: seq<Io> := [];
    st := st0;
    var io: u32 := 0;
    while io < ioCount
      invariant io <= ioCount && st.failed.None?
      invariant RunIos(run, false) == done + RunPlan(basePA, pageRemain, ioCount, io, 0, false)
      invariant CopyAll(read, writeStatuses, st0, done) == st
    {
      var startPA := ChunkStart(basePA, io, 0, false);
      var ioSize := ChunkSize(pageRemain);
      ghost var x := Io(startPA, ioSize);
      ghost var rest := RunPlan(basePA, Sub64(pageRemain, ioSize as int / PAGE_SIZE), ioCount, io + 1, ioSize, false);
      assert RunIos(run, false) == (done + [x]) + rest;
      CopyAllSnoc(read, writeStatuses, st0, done, x);
      st := Transfer(ctx, rawFile, writeStatuses, startPA, ioSize, st);
      if st.failed.Some? {
        CopyAllAppend(read, writeStatuses, st0, done + [x], rest);
        CopyAllFailedStays(read, writeStatuses, st, rest);
        return;
      }
      pageRemain := Sub64(pageRemain, ioSize as int / PAGE_SIZE);
      CorrectedIgnoresPrevSize(basePA, pageRemain, ioCount, io + 1, ioSize);
      done := done + [x];
      io := io + 1;
    }
    assert done == RunIos(run, false);
  }

  /**
   * One transfer of WriteDDR64: ReadFromDDRSectionByPhysicalAddress of
   * ioSize bytes at startPA, then NtWriteFile of them at the dump offset,
   * which then advances with the byte count.
   */
  method Transfer(ctx: DmpContext, rawFile: seq<u8>, writeStatuses: seq<NtStatus>, startPA: u64, ioSize: u32, st: Copy)
    returns (st': Copy)
    requires ctx.ddrMemoryMapCount as nat <= |ctx.ddrMemoryMap| && st.failed.None?
    ensures st' == CopyStep(DdrReader(ctx, rawFile), writeStatuses, st, Io(startPA, ioSize))
  {
    var readStatus, bytes := RR.ReadBlock(ctx, startPA, ioSize, rawFile);
    var ws := WriteStatusAt(writeStatuses, |st.writes|);
    if !NtSuccess(readStatus) {
      return st.(failed := Some(readStatus));
    }
    if !NtSuccess(ws) {
      return st.(failed := Some(ws));
    }
    st' := Copy(None, st.writes + [DdrWrite(st.offset, startPA, bytes)],
                Add64(st.offset, ioSize), Add64(st.bytesWritten, ioSize), ws);
  }

  // ------------------------------------------------------ copy helpers

  lemma CopyAllSnoc(read: Io -> (NtStatus, seq<u8>), writeStatuses: seq<NtStatus>, c0: Copy, xs: seq<Io>, x: Io)
    ensures CopyAll(read, writeStatuses, c0, xs + [x])
         == CopyStep(read, writeStatuses, CopyAll(read, writeStatuses, c0, xs), x)
  {
    assert (xs + [x])[..|xs + [x]| - 1] == xs;
  }

  /** Copying xs then ys is copying ys from where xs left off. */
  lemma {:induction false} CopyAllAppend(read: Io -> (NtStatus, seq<u8>), writeStatuses: seq<NtStatus>, c0: Copy,
                                         xs: seq<Io>, ys: seq<Io>)
    ensures CopyAll(read, writeStatuses, c0, xs + ys)
         == CopyAll(read, writeStatuses, CopyAll(read, writeStatuses, c0, xs), ys)
    decreases |ys|
  {
    if ys == [] {
      assert xs + ys == xs;
    } else {
      var ys' := ys[..|ys| - 1];
      var y := ys[|ys| - 1];
      assert xs + ys == (xs + ys') + [y];
      assert ys == ys' + [y];
      CopyAllAppend(read, writeStatuses, c0, xs, ys');
      CopyAllSnoc(read, writeStatuses, c0, xs + ys', y);
      CopyAllSnoc(read, writeStatuses, CopyAll(read, writeStatuses, c0, xs), ys', y);
    }
  }

  /** Once a transfer has failed, later transfers change nothing. */
  lemma {:induction false} CopyAllFailedStays(read: Io -> (NtStatus, seq<u8>), writeStatuses: seq<NtStatus>, c: Copy,
                                              ys: seq<Io>)
    requires c.failed.Some?
    ensures CopyAll(read, writeStatuses, c, ys) == c
    decreases |ys|
  {
    if ys != [] {
      CopyAllFailedStays(read, writeStatuses, c, ys[..|ys| - 1]);
    }
  }

  /** Run `index` continues the copy from where the runs before it left off. */
  lemma RunExtendsCopy(read: Io -> (NtStatus, seq<u8>), writeStatuses: seq<NtStatus>, c0: Copy,
                       runs: seq<RR.MemoryRun>, index: nat)
    requires index < |runs|
    ensures CopyAll(read, writeStatuses, c0, Plan(runs, index + 1, false))
         == CopyAll(read, writeStatuses, CopyAll(read, writeStatuses, c0, Plan(runs, index, false)),
                    RunIos(runs[index], false))
  {
    CopyAllAppend(read, writeStatuses, c0, Plan(runs, index, false), RunIos(runs[index], false));
  }

  /** A copy that failed within the first i runs ends there. */
  lemma FailedCopyIsFinal(read: Io -> (NtStatus, seq<u8>), writeStatuses: seq<NtStatus>, c0: Copy,
                          runs: seq<RR.MemoryRun>, i: nat, n: nat)
    requires i <= n <= |runs|
    requires CopyAll(read, writeStatuses, c0, Plan(runs, i, false)).failed.Some?
    ensures CopyAll(read, writeStatuses, c0, Plan(runs, n, false))
         == CopyAll(read, writeStatuses, c0, Plan(runs, i, false))
  {
    PlanPrefix(runs, i, n);
    var z := PlanFrom(runs, i, n);
    CopyAllAppend(read, writeStatuses, c0, Plan(runs, i, false), z);
    CopyAllFailedStays(read, writeStatuses, CopyAll(read, writeStatuses, c0, Plan(runs, i, false)), z);
  }

  /** The transfers of runs i up to k. */
  function PlanFrom(runs: seq<RR.MemoryRun>, i: nat, k: nat): seq<Io>
    requires i <= k <= |runs|
    decreases k - i
  {
    if i == k then [] else PlanFrom(runs, i, k - 1) + RunIos(runs[k - 1], false)
  }

  /** The transfers of the first k runs are those of the first i, then those of runs i up to k. */
  lemma {:induction false} PlanPrefix(runs: seq<RR.MemoryRun>, i: nat, k: nat)
    requires i <= k <= |runs|
    ensures Plan(runs, k, false) == Plan(runs, i, false) + PlanFrom(runs, i, k)
    decreases k - i
  {
    if i < k {
      PlanPrefix(runs, i, k - 1);
    }
  }

  /** The intended start address does not depend on the previous transfer's size. */
  lemma CorrectedIgnoresPrevSize(basePA: u64, pageRemain: u64, ioCount: u32, io: u32, prevSize: u32)
    ensures RunPlan(basePA, pageRemain, ioCount, io, prevSize, false) == RunPlan(basePA, pageRemain, ioCount, io, 0, false)
  {
    if io < ioCount {
      assert ChunkStart(basePA, io, prevSize, false) == ChunkStart(basePA, io, 0, false);
    }
  }

  // ------------------------------------------------------ the chunks of a run

  /**
   * The transfers read the bytes [start, start + len) in order and without
   * a gap: each starts where the previous one ended, holds at least one
   * byte and at most one buffer, and together they hold len bytes.
   */
  predicate Tiles(ios: seq<Io>, start: int, len: int)
    decreases |ios|
  {
    if ios == [] then len == 0
    else ios[0].startPA == start && 0 < ios[0].size <= len && ios[0].size <= DEFAULT_DMP_BUF_SZ
         && Tiles(ios[1..], start + ios[0].size, len - ios[0].size)
  }

  lemma {:induction false} RunPlanTiles(basePA: u64, pageRemain: u64, ioCount: u32, io: u32, prevSize: u32)
    requires io <= ioCount && (pageRemain + 0x1FF) / 0x200 == ioCount - io
    requires basePA + io as int * DEFAULT_DMP_BUF_SZ as int + pageRemain * PAGE_SIZE <= U64_LIMIT
    ensures Tiles(RunPlan(basePA, pageRemain, ioCount, io, prevSize, false),
                  basePA + io as int * DEFAULT_DMP_BUF_SZ as int, pageRemain * PAGE_SIZE)
    decreases ioCount - io
  {
    var ios := RunPlan(basePA, pageRemain, ioCount, io, prevSize, false);
    if io < ioCount {
      var size := ChunkSize(pageRemain);
      var pr' := Sub64(pageRemain, size as int / PAGE_SIZE);
      assert 1 <= pageRemain < 0x10_0000_0000_0000;
      assert ios[1..] == RunPlan(basePA, pr', ioCount, io + 1, size, false);
      assert ios[0] == Io(Add64(basePA, io as int * DEFAULT_DMP_BUF_SZ as int), size);
      if pageRemain >= 0x200 {
        assert size == DEFAULT_DMP_BUF_SZ;
        assert pr' == pageRemain - 0x200;
        RunPlanTiles(basePA, pr', ioCount, io + 1, size);
      } else {
        assert size as int == pageRemain * PAGE_SIZE;
        assert ioCount == io + 1;
        assert ios[1..] == [];
      }
    }
  }

  /** The transfers of a run may cover it: its pages fit the UINT32 transfer count and its bytes the address space. */
  predicate RunFits64(r: RR.MemoryRun)
  {
    r.pageCount <= 0x1FF_FFFF_FE00 && (r.basePage + r.pageCount) * PAGE_SIZE <= U64_LIMIT
  }

  /**
   * The intended transfers of a run read exactly the run: from BasePage *
   * PAGE_SIZE on, PageCount * PAGE_SIZE bytes, in order, one buffer at most
   * each.
   */
  lemma RunTiles(r: RR.MemoryRun)
    requires RunFits64(r)
    ensures Tiles(RunIos(r, false), r.basePage * PAGE_SIZE, r.pageCount * PAGE_SIZE)
  {
    var runSize := RR.RunLength(r, true);
    assert runSize == r.pageCount * PAGE_SIZE;
    assert IoCount(runSize) as int == (r.pageCount + 0x1FF) / 0x200;
    RunPlanTiles(RR.RunStart(r, true), r.pageCount, IoCount(runSize), 0, 0);
  }

  /**
   * Transfer k as written (a) and as intended (b): the same size, a starting
   * at basePA plus the UINT32 product k * DEFAULT_DMP_BUF_SZ, b at basePA
   * plus the full product.
   */
  predicate PairAt(a: Io, b: Io, basePA: u64, k: int)
  {
    0 <= k < U32_LIMIT && a.size == b.size
    && a.startPA == Add64(basePA, Mul32(k as u32, DEFAULT_DMP_BUF_SZ))
    && b.startPA == Add64(basePA, k * DEFAULT_DMP_BUF_SZ as int)
  }

  /** w and f are transfers io, io + 1, ... as written and as intended. */
  predicate PairsFrom(w: seq<Io>, f: seq<Io>, basePA: u64, io: int)
  {
    |w| == |f| && forall i :: 0 <= i < |w| ==> PairAt(w[i], f[i], basePA, io + i)
  }

  lemma PairsCons(a: Io, b: Io, w: seq<Io>, f: seq<Io>, basePA: u64, io: int)
    requires PairAt(a, b, basePA, io) && PairsFrom(w, f, basePA, io + 1)
    ensures PairsFrom([a] + w, [b] + f, basePA, io)
  {
    forall i | 1 <= i < |w| + 1
      ensures PairAt(([a] + w)[i], ([b] + f)[i], basePA, io + i)
    {
      assert ([a] + w)[i] == w[i - 1] && ([b] + f)[i] == f[i - 1];
      assert io + 1 + (i - 1) == io + i;
    }
  }

  /**
   * The transfers as written and as intended, from transfer io: the same
   * sizes, transfer io + i starting at basePA plus the UINT32 product
   * (io + i) * DEFAULT_DMP_BUF_SZ as written, and plus the full product as
   * intended.
   */
  lemma {:induction false} RunPlanStarts(basePA: u64, pageRemain: u64, ioCount: u32, io: u32, prevSize: u32)
    requires io <= ioCount && (pageRemain + 0x1FF) / 0x200 == ioCount - io
    requires io == 0 || io == ioCount || prevSize == DEFAULT_DMP_BUF_SZ
    ensures PairsFrom(RunPlan(basePA, pageRemain, ioCount, io, prevSize, true),
                      RunPlan(basePA, pageRemain, ioCount, io, prevSize, false), basePA, io as int)
    decreases ioCount - io
  {
    if io < ioCount {
      var w := RunPlan(basePA, pageRemain, ioCount, io, prevSize, true);
      var f := RunPlan(basePA, pageRemain, ioCount, io, prevSize, false);
      var size := ChunkSize(pageRemain);
      var pr' := Sub64(pageRemain, size as int / PAGE_SIZE);
      assert 1 <= pageRemain < 0x10_0000_0000_0000;
      if pageRemain >= 0x200 {
        assert size == DEFAULT_DMP_BUF_SZ && pr' == pageRemain - 0x200;
      } else {
        assert pr' == 0;
      }
      RunPlanStarts(basePA, pr', ioCount, io + 1, size);
      var w' := RunPlan(basePA, pr', ioCount, io + 1, size, true);
      var f' := RunPlan(basePA, pr', ioCount, io + 1, size, false);
      assert w == [w[0]] + w' && f == [f[0]] + f';
      assert PairAt(w[0], f[0], basePA, io as int) by {
        assert io == 0 || prevSize == DEFAULT_DMP_BUF_SZ;
      }
      PairsCons(w[0], f[0], w', f', basePA, io as int);
    }
  }

  /** For runs of at most 4 GiB (2048 buffers) the transfers as written are the intended ones. */
  lemma AsWrittenAgreesUpTo4GiB(r: RR.MemoryRun)
    requires r.pageCount <= 0x10_0000
    ensures RunIos(r, true) == RunIos(r, false)
  {
    var runSize := RR.RunLength(r, true);
    var n := IoCount(runSize);
    assert n as int == (r.pageCount + 0x1FF) / 0x200 <= 0x800;
    RunPlanStarts(RR.RunStart(r, true), r.pageCount, n, 0, 0);
    var w := RunIos(r, true);
    var f := RunIos(r, false);
    forall i | 0 <= i < |w|
      ensures w[i] == f[i]
    {
      assert PairAt(w[i], f[i], RR.RunStart(r, true), i);
      assert Mul32(i as u32, DEFAULT_DMP_BUF_SZ) == i * DEFAULT_DMP_BUF_SZ as int;
    }
  }

  /**
   * A run of 4 GiB and one page at address 0: as written, transfer 2048
   * wraps its UINT32 offset 2048 * 2 MiB to 0 and reads the run's first
   * bytes again where the bytes at 4 GiB were intended.
   */
  lemma AsWrittenRereadsAfter4GiB()
    ensures var r := RR.MemoryRun(0, 0x10_0001);
            var w := RunIos(r, true);
            var f := RunIos(r, false);
            |w| == |f| == 2049 && w[2048].startPA == w[0].startPA == 0 && f[2048].startPA == 0x1_0000_0000
  {
    var r := RR.MemoryRun(0, 0x10_0001);
    var runSize := RR.RunLength(r, true);
    assert runSize == 0x1_0000_1000;
    var n := IoCount(runSize);
    assert n == 2049;
    RunPlanStarts(0, 0x10_0001, n, 0, 0);
    var w := RunIos(r, true);
    var f := RunIos(r, false);
    assert PairAt(w[0], f[0], 0, 0) && PairAt(w[2048], f[2048], 0, 2048);
    assert Mul32(2048, DEFAULT_DMP_BUF_SZ) == 0;
  }

  // ------------------------------------------------------ what the copy does

  /** The bytes of the transfers ios. */
  function SumSizes(ios: seq<Io>): nat
    decreases |ios|
  {
    if ios == [] then 0 else SumSizes(ios[..|ios| - 1]) + ios[|ios| - 1].size
  }

  /** The read of transfer x and the j-th write both succeed. */
  predicate IoOk(read: Io -> (NtStatus, seq<u8>), writeStatuses: seq<NtStatus>, x: Io, j: nat)
  {
    NtSuccess(read(x).0) && NtSuccess(WriteStatusAt(writeStatuses, j))
  }

  /** Every read and every write of the transfers succeeds, the writes numbered from w0. */
  predicate AllSucceed(read: Io -> (NtStatus, seq<u8>), writeStatuses: seq<NtStatus>, ios: seq<Io>, w0: nat)
  {
    forall i :: 0 <= i < |ios| ==> IoOk(read, writeStatuses, ios[i], w0 + i)
  }

  lemma AllSucceedSnoc(read: Io -> (NtStatus, seq<u8>), writeStatuses: seq<NtStatus>, ios: seq<Io>, w0: nat)
    requires ios != []
    ensures AllSucceed(read, writeStatuses, ios, w0)
        <==> AllSucceed(read, writeStatuses, ios[..|ios| - 1], w0)
             && IoOk(read, writeStatuses, ios[|ios| - 1], w0 + |ios| - 1)
  {
    var ios' := ios[..|ios| - 1];
    assert forall i :: 0 <= i < |ios'| ==> ios'[i] == ios[i];
  }

  lemma CopyStepOk(read: Io -> (NtStatus, seq<u8>), writeStatuses: seq<NtStatus>, c: Copy, x: Io)
    ensures var r := CopyStep(read, writeStatuses, c, x);
            (r.failed.None? <==> c.failed.None? && IoOk(read, writeStatuses, x, |c.writes|))
            && (r.failed.None? ==> |r.writes| == |c.writes| + 1)
            && (c.failed.None? && r.failed.Some? ==> !NtSuccess(r.failed.value))
  {
  }

  /** The copy gets through exactly when every read and every write succeeds. */
  lemma {:induction false} CopySucceedsIff(read: Io -> (NtStatus, seq<u8>), writeStatuses: seq<NtStatus>, c0: Copy,
                                           ios: seq<Io>)
    requires c0.failed.None?
    ensures var r := CopyAll(read, writeStatuses, c0, ios);
            (r.failed.None? <==> AllSucceed(read, writeStatuses, ios, |c0.writes|))
            && (r.failed.None? ==> |r.writes| == |c0.writes| + |ios|)
            && (r.failed.Some? ==> !NtSuccess(r.failed.value))
    decreases |ios|
  {
    if ios != [] {
      var ios' := ios[..|ios| - 1];
      var x := ios[|ios| - 1];
      var r' := CopyAll(read, writeStatuses, c0, ios');
      assert CopyAll(read, writeStatuses, c0, ios) == CopyStep(read, writeStatuses, r', x);
      CopySucceedsIff(read, writeStatuses, c0, ios');
      CopyStepOk(read, writeStatuses, r', x);
      AllSucceedSnoc(read, writeStatuses, ios, |c0.writes|);
    }
  }

  /**
   * When the copy gets through, the dump holds the transfers back to back:
   * the i-th write puts the bytes read for transfer i at the start offset
   * plus the sizes of the transfers before it, and the offset and
   * bytesWritten have grown by all the sizes.
   */
  lemma {:induction false} CopyLayout(read: Io -> (NtStatus, seq<u8>), writeStatuses: seq<NtStatus>, c0: Copy,
                                      ios: seq<Io>)
    requires c0.failed.None?
    requires c0.offset + SumSizes(ios) < U64_LIMIT && c0.bytesWritten + SumSizes(ios) < U64_LIMIT
    requires CopyAll(read, writeStatuses, c0, ios).failed.None?
    ensures var r := CopyAll(read, writeStatuses, c0, ios);
            |r.writes| == |c0.writes| + |ios| && r.writes[..|c0.writes|] == c0.writes
            && r.offset == c0.offset + SumSizes(ios) && r.bytesWritten == c0.bytesWritten + SumSizes(ios)
            && forall i :: 0 <= i < |ios| ==>
                 var wr := r.writes[|c0.writes| + i];
                 wr.offset == c0.offset + SumSizes(ios[..i]) && wr.startPA == ios[i].startPA
                 && wr.data == read(ios[i]).1
    decreases |ios|
  {
    if ios != [] {
      var ios' := ios[..|ios| - 1];
      var x := ios[|ios| - 1];
      var r' := CopyAll(read, writeStatuses, c0, ios');
      var r := CopyAll(read, writeStatuses, c0, ios);
      assert r == CopyStep(read, writeStatuses, r', x);
      assert r'.failed.None?;
      CopyLayout(read, writeStatuses, c0, ios');
      assert r.writes == r'.writes + [DdrWrite(r'.offset, x.startPA, read(x).1)];
      forall i | 0 <= i < |ios|
        ensures var wr := r.writes[|c0.writes| + i];
                wr.offset == c0.offset + SumSizes(ios[..i]) && wr.startPA == ios[i].startPA
                && wr.data == read(ios[i]).1
      {
        if i < |ios'| {
          assert ios[..i] == ios'[..i] && ios[i] == ios'[i];
        } else {
          assert ios[..i] == ios';
        }
      }
    }
  }

  // ------------------------------------------------------ the whole copy

  lemma {:induction false} SumSizesAppend(xs: seq<Io>, ys: seq<Io>)
    ensures SumSizes(xs + ys) == SumSizes(xs) + SumSizes(ys)
    decreases |ys|
  {
    if ys == [] {
      assert xs + ys == xs;
    } else {
      var ys' := ys[..|ys| - 1];
      assert (xs + ys)[..|xs + ys| - 1] == xs + ys';
      SumSizesAppend(xs, ys');
    }
  }

  lemma {:induction false} TilesSum(ios: seq<Io>, start: int, len: int)
    requires Tiles(ios, start, len)
    ensures SumSizes(ios) == len
    decreases |ios|
  {
    if ios != [] {
      TilesSum(ios[1..], start + ios[0].size, len - ios[0].size);
      assert ios == [ios[0]] + ios[1..];
      SumSizesAppend([ios[0]], ios[1..]);
      assert SumSizes([ios[0]]) == ios[0].size by {
        assert [ios[0]][..0] == [];
      }
    }
  }

  /** The pages of the first k runs. */
  function TotalPages(runs: seq<RR.MemoryRun>, k: nat): nat
    requires k <= |runs|
  {
    if k == 0 then 0 else TotalPages(runs, k - 1) + runs[k - 1].pageCount
  }

  predicate RunsFit64(runs: seq<RR.MemoryRun>, k: nat)
    requires k <= |runs|
  {
    forall j :: 0 <= j < k ==> RunFits64(runs[j])
  }

  /** The intended transfers of the first k runs hold their pages' bytes. */
  lemma {:induction false} PlanBytes(runs: seq<RR.MemoryRun>, k: nat)
    requires k <= |runs| && RunsFit64(runs, k)
    ensures SumSizes(Plan(runs, k, false)) == TotalPages(runs, k) * PAGE_SIZE
  {
    if k > 0 {
      PlanBytes(runs, k - 1);
      RunTiles(runs[k - 1]);
      TilesSum(RunIos(runs[k - 1], false), runs[k - 1].basePage * PAGE_SIZE, runs[k - 1].pageCount * PAGE_SIZE);
      SumSizesAppend(Plan(runs, k - 1, false), RunIos(runs[k - 1], false));
    }
  }

  /**
   * WriteDDR64 as intended succeeds exactly when every read and write
   * succeeds and NumberOfPages is the number of pages of the runs; then the
   * dump offset has moved past all of them.
   */
  lemma DescriptorPagesDecide(read: Io -> (NtStatus, seq<u8>), writeStatuses: seq<NtStatus>, offset: u64,
                              d: RR.PhysicalMemoryDescriptor)
    requires d.numberOfRuns as nat <= |d.runs| && RunsFit64(d.runs, d.numberOfRuns as nat)
    requires TotalPages(d.runs, d.numberOfRuns as nat) * PAGE_SIZE < 0x8000_0000_0000_0000
    requires offset + TotalPages(d.runs, d.numberOfRuns as nat) * PAGE_SIZE < U64_LIMIT
    ensures var ios := Plan(d.runs, d.numberOfRuns as nat, false);
            var r := CopyAll(read, writeStatuses, CopyStart(offset), ios);
            (CopyStatus(r, d.numberOfPages) == STATUS_SUCCESS <==>
               AllSucceed(read, writeStatuses, ios, 0)
               && d.numberOfPages as int == TotalPages(d.runs, d.numberOfRuns as nat))
            && (AllSucceed(read, writeStatuses, ios, 0) ==>
                  r.offset == offset + TotalPages(d.runs, d.numberOfRuns as nat) * PAGE_SIZE)
  {
    var n := d.numberOfRuns as nat;
    var ios := Plan(d.runs, n, false);
    var c0 := CopyStart(offset);
    PlanBytes(d.runs, n);
    CopySucceedsIff(read, writeStatuses, c0, ios);
    if AllSucceed(read, writeStatuses, ios, 0) {
      CopyLayout(read, writeStatuses, c0, ios);
    }
  }

  /**
   * As written, a copy whose reads and writes all succeed returns the
   * status of its last write, STATUS_SUCCESS, whatever NumberOfPages says;
   * as intended, a page count it did not write fails.
   */
  lemma AsWrittenIgnoresPageCount(read: Io -> (NtStatus, seq<u8>), c0: Copy, ios: seq<Io>, numberOfPages: u64)
    requires ios != []
    requires CopyAll(read, [], c0, ios).failed.None?
    ensures var r := CopyAll(read, [], c0, ios);
            CopyStatusAsWritten(r, numberOfPages) == STATUS_SUCCESS
            && (PagesWritten(r.bytesWritten) != numberOfPages ==> CopyStatus(r, numberOfPages) == STATUS_UNSUCCESSFUL)
  {
    var r' := CopyAll(read, [], c0, ios[..|ios| - 1]);
    assert CopyAll(read, [], c0, ios) == CopyStep(read, [], r', ios[|ios| - 1]);
  }

  /**
   * A descriptor claiming two pages with a single run of one page: when the
   * page reads back, WriteDDR64 as written returns STATUS_SUCCESS; as
   * intended it returns STATUS_UNSUCCESSFUL.
   */
  lemma AsWrittenAcceptsMissingPage(read: Io -> (NtStatus, seq<u8>), offset: u64)
    requires read(Io(0, 0x1000)).0 == STATUS_SUCCESS
    ensures var d := RR.PhysicalMemoryDescriptor(1, 2, [RR.MemoryRun(0, 1)]);
            var r := CopyAll(read, [], CopyStart(offset), Plan(d.runs, 1, false));
            CopyStatusAsWritten(r, d.numberOfPages) == STATUS_SUCCESS && CopyStatus(r, d.numberOfPages) == STATUS_UNSUCCESSFUL
  {
    var run := RR.MemoryRun(0, 1);
    assert IoCount(RR.RunLength(run, true)) == 1;
    assert RunIos(run, false) == [Io(0, 0x1000)];
    var ios := Plan([run], 1, false);
    assert ios == Plan([run], 0, false) + RunIos([run][0], false);
    assert ios == [Io(0, 0x1000)];
    var r := CopyAll(read, [], CopyStart(offset), ios);
    assert r == CopyStep(read, [], CopyStart(offset), Io(0, 0x1000));
    assert r.bytesWritten == 0x1000;
  }
}
