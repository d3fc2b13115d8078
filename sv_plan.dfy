// The reads and writes of raw2dump's secondary dump data
// (raw2dump/src/WriteSVSections.cpp), as plans: the sequence of I/O
// operations each routine issues when every one of them succeeds. A routine
// stops at the first operation that fails, so what it does is the longest
// prefix of its plan whose operations all succeed (Done). The plans are also
// checked for their layout in the dump: writes back to back, and blobs whose
// DataSize matches the bytes that follow them.
module SvPlan {
  import opened Machine
  import opened Status
  import opened RawDumpDefs
  import opened DdrMemoryMap
  import opened Raw2DumpUtil
  import Raw2DumpCompleteMap

  // ---------------------------------------------------------------- records

  datatype Guid = Guid(data1: u32, data2: u16, data3: u16, data4: seq<u8>)

  /** DUMP_BLOB_HEADER: HeaderSize, Tag, DataSize, PrePad, PostPad (4 + 16 + 4 + 4 + 4 bytes). */
  datatype BlobHeader = BlobHeader(headerSize: u32, tag: Guid, dataSize: u32, prePad: u32, postPad: u32)
  const DUMP_BLOB_HEADER_SIZE: u32 := 32

  /** DUMP_BLOB_FILE_HEADER: the two blob signatures, HeaderSize and BuildNumber (4 ULONGs). */
  datatype BlobFileHeader = BlobFileHeader(headerSize: u32, buildNumber: u32)
  const DUMP_BLOB_FILE_HEADER_SIZE: u32 := 16
  const BLOB_BUILD_NUMBER: u32 := 1205

  /** sizeof(RAW_DUMP_HEADER) and sizeof(DDR_MEMORY_MAP) in raw2dump's layout. */
  const RAW_DUMP_HEADER_SIZE: nat := RAW_DUMP_HEADER_WITH_TABLE_SIZE
  const DDR_MEMORY_MAP_SIZE: nat := 48

  /** The copy loop's buffer size. */
  const IO_BUFFER_SIZE: nat := 0x80_0000

  const CPU_CONTEXT_GUID: Guid := Guid(0xAB3A051F, 0xEF0B, 0x4A5F, [0xA7, 0x9A, 0x80, 0xC2, 0x43, 0xBA, 0x08, 0x48])
  const NON_OS_DDR_GUID: Guid := Guid(0x3B9DEA8E, 0x75BE, 0x478F, [0x9F, 0xB4, 0x7D, 0x2C, 0x5F, 0x9D, 0xDE, 0x31])
  const MEMORY_MAP_GUID: Guid := Guid(0x11DF58C5, 0x3FDC, 0x4BB9, [0x98, 0x4D, 0xD1, 0xD8, 0x3D, 0xDF, 0x4D, 0x37])
  const RAW_DUMP_TABLE_GUID: Guid := Guid(0x0df632e9, 0x5c48, 0x43aa, [0xb8, 0xbd, 0x5f, 0xf6, 0x18, 0x05, 0x02, 0x5f])

  /** What a write takes its bytes from. */
  datatype Payload =
    | Blob(h: BlobHeader)
    | BlobFile(f: BlobFileHeader)
    | RawHeader(hdr: RawDumpHeader)        // Context->RawDumpHeader
    | RawTable(table: seq<SectionHeader>)  // Context->RawDumpSectionTable
    | ApReg                                // the AP_REG copy held by the context
    | Name(name: Name20)                   // a section's Name
    | MemoryMap(entries: seq<Entry>)       // the complete memory map
    | RawRange(rawOffset: u64, length: nat) // bytes read from the raw dump

  /** One I/O operation: a read of the raw dump, or a write of `size` bytes at `offset` of the dump. */
  datatype Event =
    | Read(rawOffset: u64, count: nat)
    | Write(offset: nat, size: nat, payload: Payload)

  /** HRESULT E_FAIL seen as an NTSTATUS, and STATUS_DISK_FULL. */
  const E_FAIL_STATUS: NtStatus := NtOther(0x8000_4005)
  const STATUS_DISK_FULL: NtStatus := NtOther(0xC000_007F)

  // ------------------------------------------------------- runs of events

  /** Whether one operation succeeds against a dump of `capacity` bytes and a raw dump of `rawSize` bytes. */
  predicate Fits(e: Event, capacity: nat, rawSize: nat)
  {
    match e
    case Read(o, n) => 0 < n && o + n <= rawSize
    case Write(o, n, _) => o + n <= capacity
  }

  /**
   * The operations of a plan that are carried out: the plan stops at the
   * first one that fails, so what is done is a prefix of the plan.
   */
  function Done(p: seq<Event>, capacity: nat, rawSize: nat): (d: seq<Event>)
    ensures |d| <= |p|
  {
    if p == [] || !Fits(p[0], capacity, rawSize) then [] else [p[0]] + Done(p[1..], capacity, rawSize)
  }

  lemma Assoc(a: seq<Event>, b: seq<Event>, c: seq<Event>)
    ensures a + (b + c) == (a + b) + c
  {
  }

  /** A plan stopped inside one step after a done prefix is not carried out whole. */
  lemma StoppedShort(done: seq<Event>, step: seq<Event>, rest: seq<Event>, capacity: nat, rawSize: nat)
    requires Done(step, capacity, rawSize) != step
    ensures done + Done(step, capacity, rawSize) != done + (step + rest)
  {
    var d := Done(step, capacity, rawSize);
    if |rest| == 0 {
      assert step + rest == step;
      assert (done + step)[|done|..] == step && (done + d)[|done|..] == d;
    }
  }

  /** A plan made of two parts does the second part when the first is done whole. */
  lemma {:induction false} DoneAppendWhole(a: seq<Event>, b: seq<Event>, capacity: nat, rawSize: nat)
    requires Done(a, capacity, rawSize) == a
    ensures Done(a + b, capacity, rawSize) == a + Done(b, capacity, rawSize)
  {
    if a == [] {
      assert a + b == b;
    } else {
      assert (a + b)[0] == a[0] && (a + b)[1..] == a[1..] + b;
      assert a == [a[0]] + a[1..];
      DoneAppendWhole(a[1..], b, capacity, rawSize);
    }
  }

  /** A plan made of two parts stops inside the first when the first cannot be done whole. */
  lemma {:induction false} DoneAppendPart(a: seq<Event>, b: seq<Event>, capacity: nat, rawSize: nat)
    requires Done(a, capacity, rawSize) != a
    ensures Done(a + b, capacity, rawSize) == Done(a, capacity, rawSize)
  {
    assert a != [];
    assert (a + b)[0] == a[0] && (a + b)[1..] == a[1..] + b;
    if Fits(a[0], capacity, rawSize) {
      assert a == [a[0]] + a[1..];
      DoneAppendPart(a[1..], b, capacity, rawSize);
    }
  }

  lemma DoneCons(e: Event, rest: seq<Event>, capacity: nat, rawSize: nat)
    ensures Done([e] + rest, capacity, rawSize)
            == if Fits(e, capacity, rawSize) then [e] + Done(rest, capacity, rawSize) else []
  {
    assert ([e] + rest)[0] == e && ([e] + rest)[1..] == rest;
  }

  lemma DoneSingle(e: Event, capacity: nat, rawSize: nat)
    ensures Done([e], capacity, rawSize) == if Fits(e, capacity, rawSize) then [e] else []
  {
    assert [e][1..] == [];
  }

  /**
   * A plan of two parts run one after the other: the whole is done exactly
   * when both parts are, and a first part that stops short stops the whole.
   */
  lemma DoneThen(a: seq<Event>, b: seq<Event>, capacity: nat, rawSize: nat)
    ensures Done(a, capacity, rawSize) != a ==> Done(a + b, capacity, rawSize) == Done(a, capacity, rawSize) != a + b
    ensures Done(a, capacity, rawSize) == a ==> Done(a + b, capacity, rawSize) == a + Done(b, capacity, rawSize)
    ensures Done(a + b, capacity, rawSize) == a + b <==> Done(a, capacity, rawSize) == a && Done(b, capacity, rawSize) == b
  {
    if Done(a, capacity, rawSize) == a {
      DoneAppendWhole(a, b, capacity, rawSize);
      var d := Done(b, capacity, rawSize);
      assert (a + d)[|a|..] == d && (a + b)[|a|..] == b;
    } else {
      DoneAppendPart(a, b, capacity, rawSize);
    }
  }

  /**
   * Running plan `a` on log `l0` gives `l1`; only when `a` was done whole
   * is `b` run, giving `l2`. The log that results is `l0` with what is done
   * of the plan `p = a + b`, which is done whole exactly when both parts are.
   */
  lemma RunThen(p: seq<Event>, a: seq<Event>, b: seq<Event>, l0: seq<Event>, l1: seq<Event>, l2: seq<Event>,
                capacity: nat, rawSize: nat, ok1: bool)
    requires p == a + b
    requires l1 == l0 + Done(a, capacity, rawSize) && (ok1 <==> Done(a, capacity, rawSize) == a)
    requires ok1 ==> l2 == l1 + Done(b, capacity, rawSize)
    ensures (if ok1 then l2 else l1) == l0 + Done(p, capacity, rawSize)
    ensures Done(p, capacity, rawSize) == p <==> ok1 && Done(b, capacity, rawSize) == b
  {
    DoneThen(a, b, capacity, rawSize);
    if ok1 {
      Assoc(l0, a, Done(b, capacity, rawSize));
    }
  }

  /** The next step of a plan fails part-way: what is done is the prefix, then what the step did. */
  lemma StepFail(plan: seq<Event>, done: seq<Event>, step: seq<Event>, rest: seq<Event>, capacity: nat, rawSize: nat)
    requires plan == done + (step + rest) && Done(done, capacity, rawSize) == done
    requires Done(step, capacity, rawSize) != step
    ensures Done(plan, capacity, rawSize) == done + Done(step, capacity, rawSize) != plan
  {
    DoneAppendWhole(done, step + rest, capacity, rawSize);
    DoneAppendPart(step, rest, capacity, rawSize);
    StoppedShort(done, step, rest, capacity, rawSize);
  }

  /** The next step of a plan is carried out whole: the done prefix grows by it. */
  lemma StepPass(plan: seq<Event>, done: seq<Event>, step: seq<Event>, rest: seq<Event>, capacity: nat, rawSize: nat)
    requires plan == done + (step + rest) && Done(done, capacity, rawSize) == done
    requires Done(step, capacity, rawSize) == step
    ensures plan == (done + step) + rest && Done(done + step, capacity, rawSize) == done + step
  {
    DoneAppendWhole(done, step, capacity, rawSize);
    assert Done(step, capacity, rawSize) == step;
    Assoc(done, step, rest);
  }

  /** The blob header write for a blob of `size` bytes. */
  function BlobEvent(offset: nat, guid: Guid, size: u64): Event
  {
    Write(offset, DUMP_BLOB_HEADER_SIZE as nat, Blob(BlobHeader(DUMP_BLOB_HEADER_SIZE, guid, Trunc32(size), 0, 0)))
  }

  function FileHeaderEvent(offset: nat): Event
  {
    Write(offset, DUMP_BLOB_FILE_HEADER_SIZE as nat, BlobFile(BlobFileHeader(DUMP_BLOB_FILE_HEADER_SIZE, BLOB_BUILD_NUMBER)))
  }

  /**
   * WpDmppReadFromRawDump as written, reading the plain file rawdump.bin
   * of rawSize bytes: SetPos succeeds on a file, DEVICE_IO::Read refuses a
   * size of 0 with E_FAIL and otherwise returns S_OK with the bytes the
   * file still holds, and a read of 0 bytes leaves with that S_OK.
   */
  function ReadAsWritten(rawSize: nat, offset: u64, bytesToRead: u32): (r: (NtStatus, nat))
    ensures r.1 <= bytesToRead
  {
    if bytesToRead == 0 then (E_FAIL_STATUS, 0)
    else (STATUS_SUCCESS, if offset >= rawSize then 0 else Min(bytesToRead, rawSize - offset))
  }

  /**
   * As written, a read that comes back short is not told apart from a full
   * one: a read wholly past the end of rawdump.bin returns success with no
   * byte read, and so does a read that runs over the end with only part of
   * its bytes.
   */
  lemma AsWrittenShortReadSucceeds()
    ensures ReadAsWritten(0x100, 0x100, 0x10) == (STATUS_SUCCESS, 0)
    ensures ReadAsWritten(0x100, 0xF8, 0x10) == (STATUS_SUCCESS, 8)
    ensures !Fits(Read(0x100, 0x10), 0, 0x100) && !Fits(Read(0xF8, 0x10), 0, 0x100)
  {
  }

  /** One iteration of the copy loop: a chunk read from the raw dump, then written to the dump. */
  function ChunkPair(rawOffset: u64, dumpOffset: nat, chunk: nat): seq<Event>
  {
    [Read(rawOffset, chunk)] + [Write(dumpOffset, chunk, RawRange(rawOffset, chunk))]
  }

  /** The copy loop's reads and writes: chunks of IO_BUFFER_SIZE bytes, the last one the remainder. */
  function CopyPlan(rawOffset: u64, dumpOffset: nat, remain: nat): seq<Event>
    decreases remain
  {
    if remain == 0 then []
    else
      var chunk := Min(remain, IO_BUFFER_SIZE);
      ChunkPair(rawOffset, dumpOffset, chunk) + CopyPlan(Add64(rawOffset, chunk), dumpOffset + chunk, remain - chunk)
  }

  /** IterationsRequired for `remain` bytes: ceil(remain / IO_BUFFER_SIZE). */
  function Iterations(remain: nat): nat
  {
    remain / IO_BUFFER_SIZE + if remain % IO_BUFFER_SIZE != 0 then 1 else 0
  }

  /** Each chunk copied takes one iteration off what is still required, and none are left with no bytes. */
  lemma IterationsStep(remain: nat)
    ensures remain == 0 <==> Iterations(remain) == 0
    ensures remain > 0 ==> Iterations(remain - Min(remain, IO_BUFFER_SIZE)) + 1 == Iterations(remain)
  {
    if remain >= IO_BUFFER_SIZE {
      assert (remain - IO_BUFFER_SIZE) / IO_BUFFER_SIZE == remain / IO_BUFFER_SIZE - 1;
      assert (remain - IO_BUFFER_SIZE) % IO_BUFFER_SIZE == remain % IO_BUFFER_SIZE;
    }
  }

  /** One chunk of the copy, then the copy of the rest. */
  lemma CopyPlanStep(rawOffset: u64, dumpOffset: nat, remain: nat, chunk: nat)
    requires remain > 0 && chunk == Min(remain, IO_BUFFER_SIZE)
    ensures CopyPlan(rawOffset, dumpOffset, remain)
            == ChunkPair(rawOffset, dumpOffset, chunk) + CopyPlan(Add64(rawOffset, chunk), dumpOffset + chunk, remain - chunk)
  {
  }

  /** The copy takes ceil(BytesToCopy / IO_BUFFER_SIZE) iterations, one read and one write each. */
  lemma {:induction false} CopyPlanLength(rawOffset: u64, dumpOffset: nat, remain: nat)
    ensures |CopyPlan(rawOffset, dumpOffset, remain)| == 2 * Iterations(remain)
    decreases remain
  {
    IterationsStep(remain);
    if remain > 0 {
      var chunk := Min(remain, IO_BUFFER_SIZE);
      CopyPlanLength(Add64(rawOffset, chunk), dumpOffset + chunk, remain - chunk);
    }
  }

  // ------------------------------------------------------- the layout

  /**
   * Where the writes of a plan end when each starts where the one before it
   * ended, beginning at `cursor`; None when some write is out of place.
   */
  function WritesEnd(p: seq<Event>, cursor: nat): Option<nat>
  {
    if p == [] then Some(cursor)
    else
      match p[0]
      case Read(_, _) => WritesEnd(p[1..], cursor)
      case Write(o, n, _) => if o == cursor then WritesEnd(p[1..], cursor + n) else None
  }

  /**
   * Whether the writes of a plan frame their blobs: a DUMP_BLOB_HEADER (or
   * the DUMP_BLOB_FILE_HEADER) comes when the blob before it has had all
   * its DataSize bytes, and the data written after a header never exceeds
   * the DataSize it announced. The result is what the last blob still
   * lacks, or None.
   */
  function Framing(p: seq<Event>, pending: nat): Option<nat>
  {
    if p == [] then Some(pending)
    else
      match p[0]
      case Read(_, _) => Framing(p[1..], pending)
      case Write(_, n, payload) =>
        if payload.Blob? then (if pending == 0 then Framing(p[1..], payload.h.dataSize) else None)
        else if payload.BlobFile? then (if pending == 0 then Framing(p[1..], 0) else None)
        else if n <= pending then Framing(p[1..], pending - n)
        else None
  }

  lemma {:induction false} WritesEndAppend(a: seq<Event>, b: seq<Event>, cursor: nat)
    ensures WritesEnd(a + b, cursor) == match WritesEnd(a, cursor) case None => None case Some(c) => WritesEnd(b, c)
  {
    if a == [] {
      assert a + b == b;
    } else {
      assert (a + b)[0] == a[0] && (a + b)[1..] == a[1..] + b;
      match a[0]
      case Read(_, _) =>
        WritesEndAppend(a[1..], b, cursor);
      case Write(o, n, _) =>
        if o == cursor {
          WritesEndAppend(a[1..], b, cursor + n);
        }
    }
  }

  lemma {:induction false} FramingAppend(a: seq<Event>, b: seq<Event>, pending: nat)
    ensures Framing(a + b, pending) == match Framing(a, pending) case None => None case Some(k) => Framing(b, k)
  {
    if a == [] {
      assert a + b == b;
    } else {
      assert (a + b)[0] == a[0] && (a + b)[1..] == a[1..] + b;
      match a[0]
      case Read(_, _) =>
        FramingAppend(a[1..], b, pending);
      case Write(_, n, payload) =>
        if payload.Blob? {
          if pending == 0 {
            FramingAppend(a[1..], b, payload.h.dataSize);
          }
        } else if payload.BlobFile? {
          if pending == 0 {
            FramingAppend(a[1..], b, 0);
          }
        } else if n <= pending {
          FramingAppend(a[1..], b, pending - n);
        }
    }
  }

  /** Two plans written back to back, the second from where the first ends. */
  lemma WritesEndChain(a: seq<Event>, b: seq<Event>, c0: nat, c1: nat, c2: nat)
    requires WritesEnd(a, c0) == Some(c1) && WritesEnd(b, c1) == Some(c2)
    ensures WritesEnd(a + b, c0) == Some(c2)
  {
    WritesEndAppend(a, b, c0);
  }

  /** Two plans that each frame their blobs frame them together. */
  lemma FramingChain(a: seq<Event>, b: seq<Event>)
    requires Framing(a, 0) == Some(0) && Framing(b, 0) == Some(0)
    ensures Framing(a + b, 0) == Some(0)
  {
    FramingAppend(a, b, 0);
  }

  /** One chunk: its write lands at the dump offset and is data, taken from what the blob still lacks. */
  lemma ChunkPairLayout(rawOffset: u64, dumpOffset: nat, chunk: nat, pending: nat)
    ensures WritesEnd(ChunkPair(rawOffset, dumpOffset, chunk), dumpOffset) == Some(dumpOffset + chunk)
    ensures Framing(ChunkPair(rawOffset, dumpOffset, chunk), pending)
            == if chunk <= pending then Some(pending - chunk) else None
  {
    var r, w := Read(rawOffset, chunk), Write(dumpOffset, chunk, RawRange(rawOffset, chunk));
    assert ([r] + [w])[0] == r && ([r] + [w])[1..] == [w] && [w][1..] == [];
    assert WritesEnd([w], dumpOffset) == WritesEnd([], dumpOffset + chunk);
    assert Framing([w], pending) == if chunk <= pending then Framing([], pending - chunk) else None;
  }

  /** The copy writes its BytesToCopy bytes back to back from the dump offset. */
  lemma {:induction false} CopyPlanEnd(rawOffset: u64, dumpOffset: nat, remain: nat)
    ensures WritesEnd(CopyPlan(rawOffset, dumpOffset, remain), dumpOffset) == Some(dumpOffset + remain)
    decreases remain
  {
    if remain > 0 {
      var chunk := Min(remain, IO_BUFFER_SIZE);
      var tail := CopyPlan(Add64(rawOffset, chunk), dumpOffset + chunk, remain - chunk);
      ChunkPairLayout(rawOffset, dumpOffset, chunk, 0);
      WritesEndAppend(ChunkPair(rawOffset, dumpOffset, chunk), tail, dumpOffset);
      CopyPlanEnd(Add64(rawOffset, chunk), dumpOffset + chunk, remain - chunk);
    }
  }

  /** The copy fills a blob exactly when the blob still lacks at least BytesToCopy bytes. */
  lemma {:induction false} CopyPlanFraming(rawOffset: u64, dumpOffset: nat, remain: nat, pending: nat)
    ensures Framing(CopyPlan(rawOffset, dumpOffset, remain), pending)
            == if remain <= pending then Some(pending - remain) else None
    decreases remain
  {
    if remain > 0 {
      var chunk := Min(remain, IO_BUFFER_SIZE);
      var tail := CopyPlan(Add64(rawOffset, chunk), dumpOffset + chunk, remain - chunk);
      ChunkPairLayout(rawOffset, dumpOffset, chunk, pending);
      FramingAppend(ChunkPair(rawOffset, dumpOffset, chunk), tail, pending);
      CopyPlanFraming(Add64(rawOffset, chunk), dumpOffset + chunk, remain - chunk, if chunk <= pending then pending - chunk else 0);
    }
  }

  // ------------------------------------------------------- the non-OS DDR

  /** The bytes copied for one map entry: (UINT32)Size of a MEMORY_NONOS entry, nothing for the others. */
  function NonOsPart(e: Entry): u32
  {
    if e.memType == MEMORY_NONOS then Trunc32(e.size) else 0
  }

  function NonOsBytes(m: seq<Entry>): nat
  {
    if m == [] then 0 else NonOsPart(m[0]) + NonOsBytes(m[1..])
  }

  /** The copy of one map entry at `offset`: a MEMORY_NONOS entry's (UINT32)Size bytes from its raw dump Offset. */
  function EntryCopy(e: Entry, offset: nat): seq<Event>
  {
    if e.memType == MEMORY_NONOS then CopyPlan(e.offset, offset, Trunc32(e.size)) else []
  }

  /** The copies of the non-OS entries of a map, one after the other from `offset`. */
  function NonOsCopies(m: seq<Entry>, offset: nat): seq<Event>
  {
    if m == [] then [] else EntryCopy(m[0], offset) + NonOsCopies(m[1..], offset + NonOsPart(m[0]))
  }

  /** The copies from entry i on: entry i's copy, then the copies from entry i + 1. */
  lemma NonOsCopiesAt(m: seq<Entry>, i: nat, offset: nat)
    requires i < |m|
    ensures NonOsCopies(m[i..], offset) == EntryCopy(m[i], offset) + NonOsCopies(m[i + 1..], offset + NonOsPart(m[i]))
    ensures NonOsBytes(m[i..]) == NonOsPart(m[i]) + NonOsBytes(m[i + 1..])
  {
    assert m[i..][0] == m[i] && m[i..][1..] == m[i + 1..];
  }

  /**
   * One turn of the non-OS copy loop: with `done` carried out and the copies
   * of `m[i..]` still to do, entry i's copy either succeeds whole, leaving
   * the copies of `m[i + 1..]` from `next`, or stops the whole plan there.
   */
  lemma NonOsCopiesStep(m: seq<Entry>, i: nat, cursor: nat, next: nat, plan: seq<Event>, done: seq<Event>,
                        capacity: nat, rawSize: nat)
    requires i < |m| && next == cursor + NonOsPart(m[i])
    requires plan == done + NonOsCopies(m[i..], cursor) && Done(done, capacity, rawSize) == done
    ensures var step := EntryCopy(m[i], cursor);
            && (Done(step, capacity, rawSize) == step ==>
                  plan == (done + step) + NonOsCopies(m[i + 1..], next) && Done(done + step, capacity, rawSize) == done + step)
            && (Done(step, capacity, rawSize) != step ==> Done(plan, capacity, rawSize) == done + Done(step, capacity, rawSize) != plan)
    ensures NonOsBytes(m[i..]) == NonOsPart(m[i]) + NonOsBytes(m[i + 1..])
  {
    var step := EntryCopy(m[i], cursor);
    var rest := NonOsCopies(m[i + 1..], next);
    NonOsCopiesAt(m, i, cursor);
    if Done(step, capacity, rawSize) == step {
      StepPass(plan, done, step, rest, capacity, rawSize);
    } else {
      StepFail(plan, done, step, rest, capacity, rawSize);
    }
  }

  /** sizeof(DDR_MEMORY_MAP) times the entry count, kept in a ULONG. */
  function MapBytes(count: u32): u32
  {
    Trunc32(count as nat * DDR_MEMORY_MAP_SIZE)
  }

  /**
   * WpDmppWriteNonOSDDR's writes: the MEMORY_MAP blob holding the complete
   * memory map, then the NON_OS_DDR blob announcing TotalNonOSDDRSizeInBytes
   * and the copies of the MEMORY_NONOS entries.
   */
  function NonOsPlan(m: seq<Entry>, count: u32, totalNonOS: u64, offset: nat): seq<Event>
    requires count as nat <= |m|
  {
    MapBlobs(m, count, totalNonOS, offset) + NonOsCopies(m[..count], offset + 2 * DUMP_BLOB_HEADER_SIZE + MapBytes(count))
  }

  /** The three writes before the copies: the MEMORY_MAP blob header, the map, the NON_OS_DDR blob header. */
  function MapBlobs(m: seq<Entry>, count: u32, totalNonOS: u64, offset: nat): seq<Event>
    requires count as nat <= |m|
  {
    var mapBytes := MapBytes(count);
    [BlobEvent(offset, MEMORY_MAP_GUID, mapBytes)]
      + ([Write(offset + DUMP_BLOB_HEADER_SIZE, mapBytes, MemoryMap(m[..count]))]
      + [BlobEvent(offset + DUMP_BLOB_HEADER_SIZE + mapBytes, NON_OS_DDR_GUID, totalNonOS)])
  }

  function NonOsPlanBytes(m: seq<Entry>, count: u32): nat
    requires count as nat <= |m|
  {
    2 * DUMP_BLOB_HEADER_SIZE + MapBytes(count) + NonOsBytes(m[..count])
  }

  /** One entry's copy: what NonOsPart counts, back to back, taken from what the blob still lacks. */
  /** An entry's copy followed by writes that go on from where it ends. */
  lemma EntryCopyThen(e: Entry, rest: seq<Event>, offset: nat, end: nat)
    requires WritesEnd(rest, offset + NonOsPart(e)) == Some(end)
    ensures WritesEnd(EntryCopy(e, offset) + rest, offset) == Some(end)
  {
    EntryCopyLayout(e, offset, 0);
    WritesEndChain(EntryCopy(e, offset), rest, offset, offset + NonOsPart(e), end);
  }

  lemma EntryCopyLayout(e: Entry, offset: nat, pending: nat)
    ensures WritesEnd(EntryCopy(e, offset), offset) == Some(offset + NonOsPart(e))
    ensures Framing(EntryCopy(e, offset), pending)
            == if NonOsPart(e) <= pending then Some(pending - NonOsPart(e)) else None
  {
    if e.memType == MEMORY_NONOS {
      CopyPlanEnd(e.offset, offset, Trunc32(e.size));
      CopyPlanFraming(e.offset, offset, Trunc32(e.size), pending);
    }
  }

  /** The copies of the non-OS entries are written back to back. */
  lemma {:induction false} NonOsCopiesEnd(m: seq<Entry>, offset: nat)
    ensures WritesEnd(NonOsCopies(m, offset), offset) == Some(offset + NonOsBytes(m))
  {
    if m != [] {
      var n := NonOsPart(m[0]);
      NonOsCopiesEnd(m[1..], offset + n);
      EntryCopyThen(m[0], NonOsCopies(m[1..], offset + n), offset, offset + n + NonOsBytes(m[1..]));
    }
  }

  /** The copies of the non-OS entries fill a blob that lacks at least their size. */
  lemma {:induction false} NonOsCopiesFraming(m: seq<Entry>, offset: nat, pending: nat)
    ensures Framing(NonOsCopies(m, offset), pending)
            == if NonOsBytes(m) <= pending then Some(pending - NonOsBytes(m)) else None
  {
    if m != [] {
      var n := NonOsPart(m[0]);
      EntryCopyLayout(m[0], offset, pending);
      FramingAppend(EntryCopy(m[0], offset), NonOsCopies(m[1..], offset + n), pending);
      NonOsCopiesFraming(m[1..], offset + n, if n <= pending then pending - n else 0);
    }
  }

  /**
   * The non-OS writes are back to back from the starting offset, and the
   * blob framing holds exactly when the NON_OS_DDR blob's DataSize,
   * (ULONG)TotalNonOSDDRSizeInBytes, is the number of bytes copied.
   */
  lemma NonOsPlanLayout(m: seq<Entry>, count: u32, totalNonOS: u64, offset: nat)
    requires count as nat <= |m|
    ensures WritesEnd(NonOsPlan(m, count, totalNonOS, offset), offset) == Some(offset + NonOsPlanBytes(m, count))
    ensures Framing(NonOsPlan(m, count, totalNonOS, offset), 0) == Some(0)
            <==> NonOsBytes(m[..count]) == Trunc32(totalNonOS)
  {
    var mapBytes := MapBytes(count);
    var e1 := BlobEvent(offset, MEMORY_MAP_GUID, mapBytes);
    var e2 := Write(offset + DUMP_BLOB_HEADER_SIZE, mapBytes, MemoryMap(m[..count]));
    var e3 := BlobEvent(offset + DUMP_BLOB_HEADER_SIZE + mapBytes, NON_OS_DDR_GUID, totalNonOS);
    var start := offset + 2 * DUMP_BLOB_HEADER_SIZE + mapBytes;
    var copies := NonOsCopies(m[..count], start);
    var total := Trunc32(totalNonOS);
    NonOsCopiesEnd(m[..count], start);
    NonOsCopiesFraming(m[..count], start, total);
    WritesEndAppend([e1] + ([e2] + [e3]), copies, offset);
    WritesEndAppend([e1], [e2] + [e3], offset);
    WritesEndAppend([e2], [e3], offset + DUMP_BLOB_HEADER_SIZE);
    FramingAppend([e1] + ([e2] + [e3]), copies, 0);
    FramingAppend([e1], [e2] + [e3], 0);
    FramingAppend([e2], [e3], mapBytes);
    assert [e1][1..] == [] && [e2][1..] == [] && [e3][1..] == [];
  }

  lemma {:induction false} NonOsBytesSnoc(m: seq<Entry>, e: Entry)
    ensures NonOsBytes(m + [e]) == NonOsBytes(m) + NonOsPart(e)
  {
    if m == [] {
      assert [e][1..] == [];
    } else {
      assert (m + [e])[1..] == m[1..] + [e];
      NonOsBytesSnoc(m[1..], e);
    }
  }

  /**
   * When no non-OS entry is 4 GiB or more and their sizes add up below
   * 2^64, the bytes copied are the UINT64 sum of the sizes that the complete
   * memory map builder keeps in TotalNonOSDDRSizeInBytes.
   */
  lemma {:induction false} NonOsBytesIsNonOsSum(m: seq<Entry>)
    requires forall i :: 0 <= i < |m| && m[i].memType == MEMORY_NONOS ==> m[i].size < U32_LIMIT
    requires NonOsBytes(m) < U64_LIMIT
    ensures Raw2DumpCompleteMap.NonOsSum(m) == NonOsBytes(m)
    decreases |m|
  {
    if m != [] {
      var init, last := m[..|m| - 1], m[|m| - 1];
      assert m == init + [last];
      NonOsBytesSnoc(init, last);
      NonOsBytesIsNonOsSum(init);
    }
  }

  /**
   * Given the complete memory map builder's promise that
   * TotalNonOSDDRSizeInBytes is the sum of the non-OS sizes, the NON_OS_DDR
   * blob announces exactly the bytes copied after it when those sizes stay
   * below 4 GiB in total.
   */
  lemma NonOsBlobFramed(m: seq<Entry>, count: u32, totalNonOS: u64, offset: nat)
    requires count as nat <= |m| && totalNonOS == Raw2DumpCompleteMap.NonOsSum(m[..count])
    requires forall i :: 0 <= i < count && m[i].memType == MEMORY_NONOS ==> m[i].size < U32_LIMIT
    requires NonOsBytes(m[..count]) < U32_LIMIT
    ensures Framing(NonOsPlan(m, count, totalNonOS, offset), 0) == Some(0)
  {
    NonOsBytesIsNonOsSum(m[..count]);
    NonOsPlanLayout(m, count, totalNonOS, offset);
  }
}
