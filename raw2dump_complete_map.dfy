// raw2dump's complete memory map: the DDR map cut into OS, non-OS and
// unavailable ranges along the physical memory runs of Windows' dump header
// (BuildCompleteMemoryMap, raw2dump/src/dumputil.cpp).
module Raw2DumpCompleteMap {
  import opened Machine
  import opened Status
  import opened DdrMemoryMap
  import opened Raw2DumpUtil
  import opened Raw2DumpReader

  /** PAGES_TO_BYTES: the page count cast to UINT64 and shifted by PAGE_SHIFT. */
  function PagesToBytes(pages: u64): (r: u64)
    ensures pages < 0x10_0000_0000_0000 ==> r == pages * PAGE_SIZE
  {
    Mul64(pages, PAGE_SIZE)
  }

  function TempBase(r: MemoryRun): u64 { PagesToBytes(r.basePage) }
  function TempLength(r: MemoryRun): u64 { PagesToBytes(r.pageCount) }
  function TempEnd(r: MemoryRun): u64 { Sub64(Add64(TempBase(r), TempLength(r)), 1) }

  /** Size = End - Base + 1 and Offset = DDR Offset + (Base - DDR Base), both in UINT64 arithmetic. */
  predicate PieceOf(e: Entry, p: Entry)
  {
    p.size == Add64(Sub64(p.end, p.base), 1) && p.offset == Add64(e.offset, Sub64(p.base, e.base))
  }

  /** The map entry for [start, end] cut from DDR map entry e; Contiguous stays as zeroed. */
  function MapPiece(e: Entry, i: u32, start: u64, end: u64, memType: u32): (p: Entry)
    ensures p.base == start && p.end == end && p.memType == memType && p.ddrIndex == i && !p.contiguous
    ensures PieceOf(e, p)
  {
    Entry(start, end, Add64(Sub64(end, start), 1), Add64(e.offset, Sub64(start, e.base)), false, memType, i)
  }

  /**
   * The range one turn of the while loop cuts at the cursor, measured
   * against the current run: before the run, up to the run's start or the
   * entry's End, non-OS below NON_OS_MEMORY_LIMIT or for a short run and
   * unavailable otherwise; else OS memory up to the run's end or the
   * entry's End.
   */
  function Cut(e: Entry, i: u32, cursor: u64, r: MemoryRun): Entry
  {
    if cursor < TempBase(r) then
      var end := Sub64(TempBase(r), 1);
      MapPiece(e, i, cursor, if end < e.end then end else e.end,
               if cursor < NON_OS_MEMORY_LIMIT || TempLength(r) < NON_OS_SIZE_LIMIT then MEMORY_NONOS else MEMORY_NA)
    else
      MapPiece(e, i, if TempBase(r) < cursor then cursor else TempBase(r),
               if TempEnd(r) <= e.end then TempEnd(r) else e.end, MEMORY_OS)
  }

  /** The turn moves on to the next run when the run ends within the DDR entry. */
  predicate UsesRun(e: Entry, cursor: u64, r: MemoryRun)
  {
    !(cursor < TempBase(r)) && TempEnd(r) <= e.end
  }

  /** The loop variables: cursor, currentPhysDesc, the entries written, TotalNonOSDDRSizeInBytes. */
  datatype Sweep = Sweep(cursor: u64, pd: nat, out: seq<Entry>, nonOS: u64)

  function Turn(e: Entry, i: u32, r: MemoryRun, s: Sweep): (t: Sweep)
    ensures |t.out| == |s.out| + 1
  {
    var p := Cut(e, i, s.cursor, r);
    Sweep(Add64(p.end, 1), if UsesRun(e, s.cursor, r) then s.pd + 1 else s.pd, s.out + [p],
          if p.memType == MEMORY_NONOS then Add64(s.nonOS, p.size) else s.nonOS)
  }

  /** The while loop over one DDR map entry. */
  function Walk(e: Entry, i: u32, runs: seq<MemoryRun>, maxPD: nat, maxC: nat, s: Sweep): Sweep
    requires maxPD <= |runs|
    decreases maxC - |s.out|
  {
    if s.cursor < e.end && |s.out| < maxC && s.pd < maxPD then Walk(e, i, runs, maxPD, maxC, Turn(e, i, runs[s.pd], s))
    else s
  }

  /** The cursor starts at the first DDR entry's Base, and is only set there. */
  function Begin(m: seq<Entry>, i: nat, s: Sweep): Sweep
    requires i < |m|
  {
    if i == 0 then Sweep(m[0].base, s.pd, s.out, s.nonOS) else s
  }

  /** The for loop over the DDR map, from entry i. */
  function SweepFrom(m: seq<Entry>, count: nat, runs: seq<MemoryRun>, maxPD: nat, maxC: nat, i: nat, s: Sweep): Sweep
    requires count <= |m| && count < U32_LIMIT && maxPD <= |runs|
    decreases count - i
  {
    if i < count then SweepFrom(m, count, runs, maxPD, maxC, i + 1, Walk(m[i], i as u32, runs, maxPD, maxC, Begin(m, i, s)))
    else s
  }

  /** endDDR after the for loop: the last entry's End, or its initial 0. */
  function LastEnd(m: seq<Entry>, count: nat): u64
    requires count <= |m|
  {
    if count == 0 then 0 else m[count - 1].end
  }

  /**
   * The final entry, from the cursor to the last DDR entry's End: non-OS if
   * shorter than NON_OS_SIZE_LIMIT, else unavailable. As written its Size
   * is added to the non-OS total whatever its type; `typedOnly` adds it
   * only for a non-OS entry, as the loop does.
   */
  function Append(m: seq<Entry>, count: nat, s: Sweep, typedOnly: bool): Sweep
    requires 1 <= count <= |m| && count < U32_LIMIT
  {
    var endDDR := m[count - 1].end;
    var size := Add64(Sub64(endDDR, s.cursor), 1);
    var p := MapPiece(m[count - 1], (count - 1) as u32, s.cursor, endDDR,
                      if size < NON_OS_SIZE_LIMIT then MEMORY_NONOS else MEMORY_NA);
    Sweep(s.cursor, s.pd, s.out + [p], if !typedOnly || p.memType == MEMORY_NONOS then Add64(s.nonOS, p.size) else s.nonOS)
  }

  /** The condition for the final entry. */
  predicate Appends(m: seq<Entry>, count: nat, s: Sweep, numberOfRuns: u32)
    requires count <= |m|
  {
    s.cursor <= LastEnd(m, count) && !(s.pd < numberOfRuns as nat) && |s.out| < Mul32(numberOfRuns, 4)
    && s.cursor < NON_OS_MEMORY_LIMIT
  }

  /**
   * The map for DDR map entries m[..count] and the first numberOfRuns runs;
   * up to NumberOfRuns * 4 (a UINT32 product) entries are written.
   */
  function CompleteMap(m: seq<Entry>, count: nat, runs: seq<MemoryRun>, numberOfRuns: u32, typedOnly: bool): Sweep
    requires count <= |m| && count < U32_LIMIT && numberOfRuns as nat <= |runs|
  {
    var s := SweepFrom(m, count, runs, numberOfRuns as nat, Mul32(numberOfRuns, 4), 0, Sweep(0, 0, [], 0));
    if Appends(m, count, s, numberOfRuns) then Append(m, count, s, typedOnly) else s
  }

  /** What BuildCompleteMemoryMap leaves: its status and the context. */
  function BuildResult(ctx: DmpContext, desc: PhysicalMemoryDescriptor, gotMemory: bool, typedOnly: bool)
    : (NtStatus, DmpContext)
    requires ctx.ddrMemoryMapCount as nat <= |ctx.ddrMemoryMap| && desc.numberOfRuns as nat <= |desc.runs|
  {
    CompleteMapBounded(ctx.ddrMemoryMap, ctx.ddrMemoryMapCount as nat, desc.runs, desc.numberOfRuns, typedOnly);
    var cleared := ctx.(completeMemoryMap := [], completeMemoryMapCount := 0, totalNonOSDDRSizeInBytes := 0);
    if !gotMemory then (STATUS_NO_MEMORY, cleared)
    else
      var s := CompleteMap(ctx.ddrMemoryMap, ctx.ddrMemoryMapCount as nat, desc.runs, desc.numberOfRuns, typedOnly);
      if Add64(s.nonOS, ctx.sizeAccordingToMemoryDescriptors) > ctx.totalDDRSizeInBytes then
        (STATUS_UNSUCCESSFUL, cleared.(totalNonOSDDRSizeInBytes := s.nonOS))
      else
        (STATUS_SUCCESS, cleared.(totalNonOSDDRSizeInBytes := s.nonOS, completeMemoryMap := s.out,
                                  completeMemoryMapCount := |s.out| as u32))
  }

  /**
   * BuildCompleteMemoryMap, counting the final entry in the non-OS total
   * only when it is non-OS. The physical memory descriptor is the 32- or
   * 64-bit one that Is64Bit selects; `gotMemory` is whether the heap
   * allocation of the NumberOfRuns * 4 entries succeeded.
   */
  method BuildCompleteMemoryMap(ctx: DmpContext, desc: PhysicalMemoryDescriptor, gotMemory: bool)
    returns (status: NtStatus, ctx': DmpContext)
    requires ctx.ddrMemoryMapCount as nat <= |ctx.ddrMemoryMap| && desc.numberOfRuns as nat <= |desc.runs|
    ensures (status, ctx') == BuildResult(ctx, desc, gotMemory, true)
  {
    ctx' := ctx.(completeMemoryMap := [], completeMemoryMapCount := 0, totalNonOSDDRSizeInBytes := 0);
    var m := ctx.ddrMemoryMap;
    var runs := desc.runs;
    var maxDDR := ctx.ddrMemoryMapCount as nat;
    var maxPhysDesc := desc.numberOfRuns as nat;
    var maxComplete := Mul32(desc.numberOfRuns, 4) as nat;
    if !gotMemory {
      return STATUS_NO_MEMORY, ctx';
    }
    var completeMemoryMap := new Entry[maxComplete](_ => ZeroEntry);
    var currentComplete, currentPhysDesc := 0, 0;
    var cursor: u64, endDDR: u64, nonOS: u64 := 0, 0, 0;
    ghost var goal := SweepFrom(m, maxDDR, runs, maxPhysDesc, maxComplete, 0, Sweep(0, 0, [], 0));
    var currentDDR := 0;
    while currentDDR < maxDDR
      invariant currentDDR <= maxDDR && currentComplete <= maxComplete && currentPhysDesc <= maxPhysDesc
      invariant SweepFrom(m, maxDDR, runs, maxPhysDesc, maxComplete, currentDDR,
                          Sweep(cursor, currentPhysDesc, completeMemoryMap[..currentComplete], nonOS)) == goal
      invariant endDDR == LastEnd(m, currentDDR)
      invariant currentDDR == 0 ==> currentComplete == 0 && currentPhysDesc == 0
    {
      var e := m[currentDDR];
      endDDR := e.end;
      ghost var s := Begin(m, currentDDR, Sweep(cursor, currentPhysDesc, completeMemoryMap[..currentComplete], nonOS));
      if currentDDR == 0 {
        cursor := e.base;
      }
      cursor, currentPhysDesc, currentComplete, nonOS :=
        WalkEntry(e, currentDDR as u32, runs, maxPhysDesc, completeMemoryMap, cursor, currentPhysDesc, currentComplete, nonOS);
      currentDDR := currentDDR + 1;
    }
    var sweep := Sweep(cursor, currentPhysDesc, completeMemoryMap[..currentComplete], nonOS);
    if cursor <= endDDR && !(currentPhysDesc < maxPhysDesc) && currentComplete < maxComplete
       && cursor < NON_OS_MEMORY_LIMIT {
      var size := Add64(Sub64(endDDR, cursor), 1);
      var piece := MapPiece(m[currentDDR - 1], (currentDDR - 1) as u32, cursor, endDDR,
                            if size < NON_OS_SIZE_LIMIT then MEMORY_NONOS else MEMORY_NA);
      ghost var before := completeMemoryMap[..currentComplete];
      completeMemoryMap[currentComplete] := piece;
      assert completeMemoryMap[..currentComplete + 1] == before + [piece];
      if piece.memType == MEMORY_NONOS {
        nonOS := Add64(nonOS, piece.size);
      }
      currentComplete := currentComplete + 1;
    }
    ctx' := ctx'.(totalNonOSDDRSizeInBytes := nonOS);
    if Add64(nonOS, ctx.sizeAccordingToMemoryDescriptors) > ctx.totalDDRSizeInBytes {
      return STATUS_UNSUCCESSFUL, ctx';
    }
    CompleteMapBounded(m, maxDDR, runs, desc.numberOfRuns, true);
    ctx' := ctx'.(completeMemoryMap := completeMemoryMap[..currentComplete], completeMemoryMapCount := currentComplete as u32);
    status := STATUS_SUCCESS;
  }

  /** One turn's cut of entry e at cursor against run r, and whether the run is used up. */
  method CutRun(e: Entry, i: u32, cursor: u64, run: MemoryRun) returns (piece: Entry, usesRun: bool)
    ensures piece == Cut(e, i, cursor, run) && usesRun == UsesRun(e, cursor, run)
  {
    var endDDR := e.end;
    var tempBase := PagesToBytes(run.basePage);
    var tempLength := PagesToBytes(run.pageCount);
    var tempEnd := Sub64(Add64(tempBase, tempLength), 1);
    var start, end, memType;
    usesRun := false;
    if cursor < tempBase {
      start := cursor;
      end := Sub64(tempBase, 1);
      end := if end < endDDR then end else endDDR;
      memType := if cursor < NON_OS_MEMORY_LIMIT || tempLength < NON_OS_SIZE_LIMIT then MEMORY_NONOS else MEMORY_NA;
    } else {
      start := if tempBase < cursor then cursor else tempBase;
      end := tempEnd;
      memType := MEMORY_OS;
      if end <= endDDR {
        usesRun := true;
      } else {
        end := endDDR;
      }
    }
    piece := MapPiece(e, i, start, end, memType);
  }

  /** The while loop over DDR map entry e (index i), writing entries into completeMemoryMap from currentComplete. */
  method WalkEntry(e: Entry, i: u32, runs: seq<MemoryRun>, maxPhysDesc: nat, completeMemoryMap: array<Entry>,
                   cursor0: u64, currentPhysDesc0: nat, currentComplete0: nat, nonOS0: u64)
    returns (cursor: u64, currentPhysDesc: nat, currentComplete: nat, nonOS: u64)
    requires maxPhysDesc <= |runs| && currentPhysDesc0 <= maxPhysDesc && currentComplete0 <= completeMemoryMap.Length
    modifies completeMemoryMap
    ensures currentComplete0 <= currentComplete <= completeMemoryMap.Length && currentPhysDesc <= maxPhysDesc
    ensures Sweep(cursor, currentPhysDesc, completeMemoryMap[..currentComplete], nonOS)
            == Walk(e, i, runs, maxPhysDesc, completeMemoryMap.Length,
                    Sweep(cursor0, currentPhysDesc0, old(completeMemoryMap[..currentComplete0]), nonOS0))
    ensures currentPhysDesc0 < currentPhysDesc ==> currentComplete0 < currentComplete
  {
    var maxComplete := completeMemoryMap.Length;
    cursor, currentPhysDesc, currentComplete, nonOS := cursor0, currentPhysDesc0, currentComplete0, nonOS0;
    var endDDR := e.end;
    while cursor < endDDR && currentComplete < maxComplete && currentPhysDesc < maxPhysDesc
      invariant currentComplete0 <= currentComplete <= maxComplete && currentPhysDesc <= maxPhysDesc
      invariant Walk(e, i, runs, maxPhysDesc, maxComplete, Sweep(cursor, currentPhysDesc, completeMemoryMap[..currentComplete], nonOS))
                == Walk(e, i, runs, maxPhysDesc, maxComplete,
                        Sweep(cursor0, currentPhysDesc0, old(completeMemoryMap[..currentComplete0]), nonOS0))
      invariant currentPhysDesc0 < currentPhysDesc ==> currentComplete0 < currentComplete
      decreases maxComplete - currentComplete
    {
      var run := runs[currentPhysDesc];
      ghost var s := Sweep(cursor, currentPhysDesc, completeMemoryMap[..currentComplete], nonOS);
      var piece, usesRun := CutRun(e, i, cursor, run);
      cursor := Add64(piece.end, 1);
      if usesRun {
        currentPhysDesc := currentPhysDesc + 1;
      }
      completeMemoryMap[currentComplete] := piece;
      assert completeMemoryMap[..currentComplete + 1] == s.out + [piece];
      if piece.memType == MEMORY_NONOS {
        nonOS := Add64(nonOS, piece.size);
      }
      currentComplete := currentComplete + 1;
      assert Sweep(cursor, currentPhysDesc, completeMemoryMap[..currentComplete], nonOS) == Turn(e, i, run, s);
    }
  }

  // ------------------------------------------------------------ lemmas

  lemma {:induction false} WalkBounded(e: Entry, i: u32, runs: seq<MemoryRun>, maxPD: nat, maxC: nat, s: Sweep)
    requires maxPD <= |runs| && |s.out| <= maxC
    ensures |s.out| <= |Walk(e, i, runs, maxPD, maxC, s).out| <= maxC
    decreases maxC - |s.out|
  {
    if s.cursor < e.end && |s.out| < maxC && s.pd < maxPD {
      WalkBounded(e, i, runs, maxPD, maxC, Turn(e, i, runs[s.pd], s));
    }
  }

  lemma {:induction false} SweepBounded(m: seq<Entry>, count: nat, runs: seq<MemoryRun>, maxPD: nat, maxC: nat,
                                        i: nat, s: Sweep)
    requires count <= |m| && count < U32_LIMIT && maxPD <= |runs| && |s.out| <= maxC
    ensures |SweepFrom(m, count, runs, maxPD, maxC, i, s).out| <= maxC
    decreases count - i
  {
    if i < count {
      WalkBounded(m[i], i as u32, runs, maxPD, maxC, Begin(m, i, s));
      SweepBounded(m, count, runs, maxPD, maxC, i + 1, Walk(m[i], i as u32, runs, maxPD, maxC, Begin(m, i, s)));
    }
  }

  /** The map never holds more than the NumberOfRuns * 4 entries allocated for it. */
  lemma CompleteMapBounded(m: seq<Entry>, count: nat, runs: seq<MemoryRun>, numberOfRuns: u32, typedOnly: bool)
    requires count <= |m| && count < U32_LIMIT && numberOfRuns as nat <= |runs|
    ensures |CompleteMap(m, count, runs, numberOfRuns, typedOnly).out| <= Mul32(numberOfRuns, 4)
  {
    SweepBounded(m, count, runs, numberOfRuns as nat, Mul32(numberOfRuns, 4), 0, Sweep(0, 0, [], 0));
  }

  /** Every entry belongs to one DDR map entry, has that entry's Size and Offset formulas, and is OS, non-OS or unavailable. */
  predicate AllPieces(m: seq<Entry>, count: nat, out: seq<Entry>)
    requires count <= |m|
  {
    forall k :: 0 <= k < |out| ==>
      out[k].ddrIndex < count && PieceOf(m[out[k].ddrIndex], out[k])
      && (out[k].memType == MEMORY_OS || out[k].memType == MEMORY_NONOS || out[k].memType == MEMORY_NA)
  }

  lemma {:induction false} WalkPieces(m: seq<Entry>, count: nat, i: nat, runs: seq<MemoryRun>, maxPD: nat, maxC: nat,
                                      s: Sweep)
    requires count <= |m| && i < count && count < U32_LIMIT && maxPD <= |runs|
    requires AllPieces(m, count, s.out)
    ensures AllPieces(m, count, Walk(m[i], i as u32, runs, maxPD, maxC, s).out)
    decreases maxC - |s.out|
  {
    if s.cursor < m[i].end && |s.out| < maxC && s.pd < maxPD {
      var t := Turn(m[i], i as u32, runs[s.pd], s);
      assert forall k :: 0 <= k < |s.out| ==> t.out[k] == s.out[k];
      WalkPieces(m, count, i, runs, maxPD, maxC, t);
    }
  }

  lemma {:induction false} SweepPieces(m: seq<Entry>, count: nat, runs: seq<MemoryRun>, maxPD: nat, maxC: nat,
                                       i: nat, s: Sweep)
    requires count <= |m| && count < U32_LIMIT && maxPD <= |runs|
    requires AllPieces(m, count, s.out)
    ensures AllPieces(m, count, SweepFrom(m, count, runs, maxPD, maxC, i, s).out)
    decreases count - i
  {
    if i < count {
      WalkPieces(m, count, i, runs, maxPD, maxC, Begin(m, i, s));
      SweepPieces(m, count, runs, maxPD, maxC, i + 1, Walk(m[i], i as u32, runs, maxPD, maxC, Begin(m, i, s)));
    }
  }

  /**
   * Every entry of the map has Size = End - Base + 1 and Offset = DDR
   * Offset + (Base - DDR Base) for the DDR map entry its DDRIndex names.
   */
  lemma CompleteMapPieces(m: seq<Entry>, count: nat, runs: seq<MemoryRun>, numberOfRuns: u32, typedOnly: bool)
    requires count <= |m| && count < U32_LIMIT && numberOfRuns as nat <= |runs|
    ensures AllPieces(m, count, CompleteMap(m, count, runs, numberOfRuns, typedOnly).out)
  {
    var s := SweepFrom(m, count, runs, numberOfRuns as nat, Mul32(numberOfRuns, 4), 0, Sweep(0, 0, [], 0));
    SweepPieces(m, count, runs, numberOfRuns as nat, Mul32(numberOfRuns, 4), 0, Sweep(0, 0, [], 0));
    if Appends(m, count, s, numberOfRuns) {
      var t := Append(m, count, s, typedOnly);
      assert forall k :: 0 <= k < |s.out| ==> t.out[k] == s.out[k];
    }
  }

  /** Entry k starts right after entry k - 1 ends. */
  predicate Follows(out: seq<Entry>, k: nat)
    requires 0 < k < |out|
  {
    out[k].base == Add64(out[k - 1].end, 1)
  }

  /** The entries tile one address range from `start`, each starting where the last one ended. */
  predicate Tiled(out: seq<Entry>, start: u64)
  {
    (|out| > 0 ==> out[0].base == start) && forall k :: 0 < k < |out| ==> Follows(out, k)
  }

  /** The loop state continues a tiling from start: the cursor is one past the last entry. */
  predicate Linked(s: Sweep, start: u64)
  {
    Tiled(s.out, start) && s.cursor == (if |s.out| == 0 then start else Add64(s.out[|s.out| - 1].end, 1))
  }

  lemma TurnLinked(e: Entry, i: u32, r: MemoryRun, s: Sweep, start: u64)
    requires Linked(s, start)
    ensures Linked(Turn(e, i, r, s), start)
  {
    var t := Turn(e, i, r, s);
    assert t.out[|s.out|].base == s.cursor;
    forall k | 0 < k < |t.out|
      ensures Follows(t.out, k)
    {
      if k < |s.out| {
        assert Follows(s.out, k);
      }
    }
  }

  lemma {:induction false} WalkLinked(e: Entry, i: u32, runs: seq<MemoryRun>, maxPD: nat, maxC: nat, s: Sweep,
                                      start: u64)
    requires maxPD <= |runs| && Linked(s, start)
    ensures Linked(Walk(e, i, runs, maxPD, maxC, s), start)
    decreases maxC - |s.out|
  {
    if s.cursor < e.end && |s.out| < maxC && s.pd < maxPD {
      TurnLinked(e, i, runs[s.pd], s, start);
      WalkLinked(e, i, runs, maxPD, maxC, Turn(e, i, runs[s.pd], s), start);
    }
  }

  lemma {:induction false} SweepLinked(m: seq<Entry>, count: nat, runs: seq<MemoryRun>, maxPD: nat, maxC: nat,
                                       i: nat, s: Sweep)
    requires count <= |m| && count < U32_LIMIT && maxPD <= |runs| && 0 < i && 0 < |m|
    requires Linked(s, m[0].base)
    ensures Linked(SweepFrom(m, count, runs, maxPD, maxC, i, s), m[0].base)
    decreases count - i
  {
    if i < count {
      WalkLinked(m[i], i as u32, runs, maxPD, maxC, s, m[0].base);
      SweepLinked(m, count, runs, maxPD, maxC, i + 1, Walk(m[i], i as u32, runs, maxPD, maxC, s));
    }
  }

  /**
   * The entries tile one address range from the first DDR entry's Base:
   * each starts right after the previous one ends, so with no DDR entry
   * there is no entry at all, and a hole between DDR entries is covered by
   * an entry of the entry after it.
   */
  lemma CompleteMapTiled(m: seq<Entry>, count: nat, runs: seq<MemoryRun>, numberOfRuns: u32, typedOnly: bool)
    requires count <= |m| && count < U32_LIMIT && numberOfRuns as nat <= |runs|
    ensures var out := CompleteMap(m, count, runs, numberOfRuns, typedOnly).out;
            (count == 0 ==> out == []) && (count > 0 ==> Tiled(out, m[0].base))
  {
    var maxC := Mul32(numberOfRuns, 4);
    var s0 := Sweep(0, 0, [], 0);
    var s := SweepFrom(m, count, runs, numberOfRuns as nat, maxC, 0, s0);
    if count > 0 {
      var b := Begin(m, 0, s0);
      WalkLinked(m[0], 0, runs, numberOfRuns as nat, maxC, b, m[0].base);
      SweepLinked(m, count, runs, numberOfRuns as nat, maxC, 1, Walk(m[0], 0, runs, numberOfRuns as nat, maxC, b));
      if Appends(m, count, s, numberOfRuns) {
        var t := Append(m, count, s, typedOnly);
        assert t.out[|s.out|].base == s.cursor;
        forall k | 0 < k < |t.out|
          ensures Follows(t.out, k)
        {
          if k < |s.out| {
            assert Follows(s.out, k);
          }
        }
      }
    }
  }

  /** The total size of the non-OS entries, in UINT64 arithmetic. */
  function NonOsSum(out: seq<Entry>): u64
  {
    if out == [] then 0
    else Add64(NonOsSum(out[..|out| - 1]), if out[|out| - 1].memType == MEMORY_NONOS then out[|out| - 1].size else 0)
  }

  lemma NonOsSumSnoc(out: seq<Entry>, p: Entry)
    ensures NonOsSum(out + [p]) == Add64(NonOsSum(out), if p.memType == MEMORY_NONOS then p.size else 0)
  {
    assert (out + [p])[..|out|] == out;
  }

  lemma {:induction false} WalkNonOs(e: Entry, i: u32, runs: seq<MemoryRun>, maxPD: nat, maxC: nat, s: Sweep)
    requires maxPD <= |runs| && s.nonOS == NonOsSum(s.out)
    ensures var t := Walk(e, i, runs, maxPD, maxC, s); t.nonOS == NonOsSum(t.out)
    decreases maxC - |s.out|
  {
    if s.cursor < e.end && |s.out| < maxC && s.pd < maxPD {
      NonOsSumSnoc(s.out, Cut(e, i, s.cursor, runs[s.pd]));
      WalkNonOs(e, i, runs, maxPD, maxC, Turn(e, i, runs[s.pd], s));
    }
  }

  lemma {:induction false} SweepNonOs(m: seq<Entry>, count: nat, runs: seq<MemoryRun>, maxPD: nat, maxC: nat,
                                      i: nat, s: Sweep)
    requires count <= |m| && count < U32_LIMIT && maxPD <= |runs| && s.nonOS == NonOsSum(s.out)
    ensures var t := SweepFrom(m, count, runs, maxPD, maxC, i, s); t.nonOS == NonOsSum(t.out)
    decreases count - i
  {
    if i < count {
      WalkNonOs(m[i], i as u32, runs, maxPD, maxC, Begin(m, i, s));
      SweepNonOs(m, count, runs, maxPD, maxC, i + 1, Walk(m[i], i as u32, runs, maxPD, maxC, Begin(m, i, s)));
    }
  }

  /** Counting only non-OS entries, TotalNonOSDDRSizeInBytes is the total size of the map's non-OS entries. */
  lemma CompleteMapNonOsTotal(m: seq<Entry>, count: nat, runs: seq<MemoryRun>, numberOfRuns: u32)
    requires count <= |m| && count < U32_LIMIT && numberOfRuns as nat <= |runs|
    ensures var s := CompleteMap(m, count, runs, numberOfRuns, true); s.nonOS == NonOsSum(s.out)
  {
    var s := SweepFrom(m, count, runs, numberOfRuns as nat, Mul32(numberOfRuns, 4), 0, Sweep(0, 0, [], 0));
    SweepNonOs(m, count, runs, numberOfRuns as nat, Mul32(numberOfRuns, 4), 0, Sweep(0, 0, [], 0));
    if Appends(m, count, s, numberOfRuns) {
      var t := Append(m, count, s, true);
      NonOsSumSnoc(s.out, t.out[|s.out|]);
    }
  }

  /**
   * What the built context means: no memory leaves it cleared; otherwise the
   * non-OS total is the size of the map's non-OS entries, and on success
   * the map is the count of entries recorded, within the allocation, every
   * entry a piece of a DDR entry, tiling from the first DDR Base, with the
   * non-OS and OS totals within the DDR total; a failure fails that bound.
   */
  lemma BuildResultMeaning(ctx: DmpContext, desc: PhysicalMemoryDescriptor, gotMemory: bool)
    requires ctx.ddrMemoryMapCount as nat <= |ctx.ddrMemoryMap| && desc.numberOfRuns as nat <= |desc.runs|
    ensures var (status, c) := BuildResult(ctx, desc, gotMemory, true);
            var m, count := ctx.ddrMemoryMap, ctx.ddrMemoryMapCount as nat;
            && (status == STATUS_SUCCESS || status == STATUS_UNSUCCESSFUL || status == STATUS_NO_MEMORY)
            && (status == STATUS_NO_MEMORY <==> !gotMemory)
            && (status != STATUS_SUCCESS ==> c.completeMemoryMap == [] && c.completeMemoryMapCount == 0)
            && (gotMemory ==> c.totalNonOSDDRSizeInBytes
                              == NonOsSum(CompleteMap(m, count, desc.runs, desc.numberOfRuns, true).out))
            && (status == STATUS_UNSUCCESSFUL ==>
                  Add64(c.totalNonOSDDRSizeInBytes, ctx.sizeAccordingToMemoryDescriptors) > ctx.totalDDRSizeInBytes)
            && (status == STATUS_SUCCESS ==>
                  && c.completeMemoryMapCount as nat == |c.completeMemoryMap| <= Mul32(desc.numberOfRuns, 4)
                  && c.totalNonOSDDRSizeInBytes == NonOsSum(c.completeMemoryMap)
                  && AllPieces(m, count, c.completeMemoryMap)
                  && (count > 0 ==> Tiled(c.completeMemoryMap, m[0].base))
                  && Add64(c.totalNonOSDDRSizeInBytes, ctx.sizeAccordingToMemoryDescriptors) <= ctx.totalDDRSizeInBytes)
  {
    var m, count := ctx.ddrMemoryMap, ctx.ddrMemoryMapCount as nat;
    CompleteMapBounded(m, count, desc.runs, desc.numberOfRuns, true);
    CompleteMapPieces(m, count, desc.runs, desc.numberOfRuns, true);
    CompleteMapTiled(m, count, desc.runs, desc.numberOfRuns, true);
    CompleteMapNonOsTotal(m, count, desc.runs, desc.numberOfRuns);
  }

  /**
   * As written, a final entry too long to be non-OS still adds its Size to
   * the non-OS total: one DDR entry [0, 0x3FFF_FFFF] and one run of the
   * first 0x1000_0000 bytes leave an unavailable tail of 0x3000_0000 bytes
   * counted as non-OS while no entry is non-OS.
   */
  lemma AsWrittenCountsUnavailableTail()
    ensures var m := [Entry(0, 0x3FFF_FFFF, 0x4000_0000, 0, false, 0, 0)];
            var runs := [MemoryRun(0, 0x1_0000)];
            var s := CompleteMap(m, 1, runs, 1, false);
            |s.out| == 2 && s.out[1].memType == MEMORY_NA && s.nonOS == 0x3000_0000 && NonOsSum(s.out) == 0
  {
    var m := [Entry(0, 0x3FFF_FFFF, 0x4000_0000, 0, false, 0, 0)];
    var runs := [MemoryRun(0, 0x1_0000)];
    var b := Begin(m, 0, Sweep(0, 0, [], 0));
    var t := Turn(m[0], 0, runs[0], b);
    assert TempEnd(runs[0]) == 0x0FFF_FFFF;
    assert t.cursor == 0x1000_0000 && t.pd == 1 && t.out[0].memType == MEMORY_OS && t.nonOS == 0;
    assert Walk(m[0], 0, runs, 1, 4, t) == t;
    assert SweepFrom(m, 1, runs, 1, 4, 0, Sweep(0, 0, [], 0)) == t;
    var s := CompleteMap(m, 1, runs, 1, false);
    assert s.out == t.out + [s.out[1]];
    NonOsSumSnoc(t.out, s.out[1]);
    NonOsSumSnoc([], t.out[0]);
    assert [] + [t.out[0]] == t.out;
  }
}
