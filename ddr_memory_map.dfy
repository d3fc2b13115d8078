// The DDR memory map shared by the three map builders: the entry record
// (DDR_MEMORY_MAP), the in-place bubble sort by base address, and the
// classification of neighbouring entries the sanity passes perform
// (OffDmpSvc/lib/buildparams.cpp, raw2dump/src/dumputil.cpp,
// test/offdumptool/exe/Dumputil.cpp).
module DdrMemoryMap {
  import opened Machine
  import opened RawDumpDefs

  /**
   * DDR_MEMORY_MAP. `memType` and `ddrIndex` exist only in raw2dump's
   * version of the record; the other builders leave them zero.
   */
  datatype Entry = Entry(base: u64, end: u64, size: u64, offset: u64, contiguous: bool, memType: u32, ddrIndex: u32)

  const ZeroEntry := Entry(0, 0, 0, 0, false, 0, 0)

  /** End = Base + Size - 1, in UINT64 arithmetic. */
  function EndOf(base: u64, size: u64): (r: u64)
    ensures 1 <= size && base + size <= U64_LIMIT ==> r == base + size - 1
    ensures size == 0 && base == 0 ==> r == U64_MAX
  {
    Sub64(Add64(base, size), 1)
  }

  /** A filled entry is degenerate when it wrapped (End < Base) or is empty. */
  lemma EndOfWrapsIff(base: u64, size: u64)
    requires size != 0
    ensures EndOf(base, size) < base <==> base + size > U64_LIMIT
  {
  }

  predicate SortedByBase(s: seq<Entry>)
  {
    forall i, j :: 0 <= i < j < |s| ==> s[i].base <= s[j].base
  }

  /**
   * The source's bubble sort: passes i < n - 1, comparisons j < n - 1 - i,
   * swapping neighbours whose bases are out of order. The bounds are UINT32
   * expressions, so the caller must supply at least one entry.
   */
  method BubbleSortByBase(a: array<Entry>)
    requires 1 <= a.Length < U32_LIMIT
    modifies a
    ensures SortedByBase(a[..])
    ensures multiset(a[..]) == multiset(old(a[..]))
  {
    var n := a.Length;
    var i := 0;
    while i < n - 1
      invariant i <= n - 1
      invariant multiset(a[..]) == multiset(old(a[..]))
      invariant SuffixSortedAbove(a[..], n - i)
    {
      BubblePass(a, n - 1 - i);
      i := i + 1;
    }
    NeighboursSortedIsSorted(a[..]);
  }

  /**
   * From `from` on, neighbouring entries are in order, and no entry before
   * `from` has a larger base than the one at `from`.
   */
  ghost predicate SuffixSortedAbove(s: seq<Entry>, from: nat)
    requires from <= |s|
  {
    (forall p :: from <= p < |s| - 1 ==> s[p].base <= s[p + 1].base)
    && (from < |s| ==> forall p :: 0 <= p < from ==> s[p].base <= s[from].base)
  }

  lemma {:induction false} NeighboursSortedIsSorted(s: seq<Entry>)
    requires |s| >= 1 && SuffixSortedAbove(s, 0)
    ensures SortedByBase(s)
  {
    forall i, j | 0 <= i < j < |s| ensures s[i].base <= s[j].base {
      NeighboursChain(s, i, j);
    }
  }

  lemma {:induction false} NeighboursChain(s: seq<Entry>, i: nat, j: nat)
    requires i <= j < |s|
    requires forall p :: 0 <= p < |s| - 1 ==> s[p].base <= s[p + 1].base
    ensures s[i].base <= s[j].base
  {
    if i < j {
      NeighboursChain(s, i, j - 1);
    }
  }

  /** One pass of the sort: moves the largest base of a[..last + 1] to position last. */
  method BubblePass(a: array<Entry>, last: nat)
    requires last < a.Length
    requires SuffixSortedAbove(a[..], last + 1)
    modifies a
    ensures multiset(a[..]) == multiset(old(a[..]))
    ensures SuffixSortedAbove(a[..], last)
  {
    var j := 0;
    while j < last
      invariant j <= last
      invariant multiset(a[..]) == multiset(old(a[..]))
      invariant forall p :: 0 <= p <= j ==> a[p].base <= a[j].base
      invariant SuffixSortedAbove(a[..], last + 1)
    {
      OrderNeighbours(a, j, last);
      j := j + 1;
    }
  }

  /**
   * The comparison and the three memcpy calls through tmpDdrRecord:
   * exchange entries j and j + 1 when they are out of order, which keeps the
   * sorted suffix and carries the running maximum to j + 1.
   */
  method OrderNeighbours(a: array<Entry>, j: nat, last: nat)
    requires j < last < a.Length
    requires SuffixSortedAbove(a[..], last + 1)
    requires forall p :: 0 <= p <= j ==> a[p].base <= a[j].base
    modifies a
    ensures a[..] == if old(a[j].base > a[j + 1].base) then old(a[..])[j := old(a[j + 1])][j + 1 := old(a[j])] else old(a[..])
    ensures multiset(a[..]) == multiset(old(a[..]))
    ensures SuffixSortedAbove(a[..], last + 1)
    ensures forall p :: 0 <= p <= j + 1 ==> a[p].base <= a[j + 1].base
  {
    if a[j].base > a[j + 1].base {
      SwapNeighbours(a, j, last);
    }
  }

  /** The swap itself, when entry j has the larger base. */
  method SwapNeighbours(a: array<Entry>, j: nat, last: nat)
    requires j < last < a.Length
    requires SuffixSortedAbove(a[..], last + 1)
    requires forall p :: 0 <= p <= j ==> a[p].base <= a[j].base
    requires a[j].base > a[j + 1].base
    modifies a
    ensures a[..] == old(a[..])[j := old(a[j + 1])][j + 1 := old(a[j])]
    ensures multiset(a[..]) == multiset(old(a[..]))
    ensures SuffixSortedAbove(a[..], last + 1)
    ensures forall p :: 0 <= p <= j + 1 ==> a[p].base <= a[j + 1].base
  {
    var tmp := a[j];
    a[j] := a[j + 1];
    a[j + 1] := tmp;
  }

  /** How the sanity pass sees entry i relative to entry i - 1. */
  datatype Neighbour = Adjacent | Hole | Overlap

  /**
   * The test as written: `previousEnd < currentStart - 1` is a hole,
   * else `previousEnd >= currentStart` is an overlap, else adjacent. The
   * subtraction is UINT64 and wraps when currentStart is 0.
   */
  function ClassifyAsWritten(previousEnd: u64, currentStart: u64): Neighbour
  {
    if previousEnd < Sub64(currentStart, 1) then Hole
    else if previousEnd >= currentStart then Overlap
    else Adjacent
  }

  /** The intended test, with a base of 0 not wrapping round. */
  function Classify(previousEnd: u64, currentStart: u64): (r: Neighbour)
    ensures r == Overlap <==> previousEnd >= currentStart
    ensures r == Adjacent <==> previousEnd + 1 == currentStart
    ensures r == Hole <==> previousEnd + 1 < currentStart
  {
    if currentStart > 0 && previousEnd < currentStart - 1 then Hole
    else if previousEnd >= currentStart then Overlap
    else Adjacent
  }

  /** The as-written test agrees with the intended one except when the base is 0. */
  lemma ClassifyAsWrittenAgrees(previousEnd: u64, currentStart: u64)
    requires currentStart != 0
    ensures ClassifyAsWritten(previousEnd, currentStart) == Classify(previousEnd, currentStart)
  {
  }

  /** Two sections at base 0: the as-written test calls the overlap a hole. */
  lemma ClassifyAsWrittenMissesOverlapAtZero(previousEnd: u64)
    requires previousEnd < U64_MAX
    ensures ClassifyAsWritten(previousEnd, 0) == Hole
    ensures Classify(previousEnd, 0) == Overlap
  {
  }

  /** An entry the sanity pass rejects outright. */
  predicate Degenerate(e: Entry)
  {
    e.end < e.base || e.size == 0
  }

  /** Number of i in [1, k) whose pair (i - 1, i) is classified as `kind`. */
  function CountPairs(m: seq<Entry>, k: nat, kind: Neighbour): (r: nat)
    requires k <= |m|
    ensures r <= k
  {
    if k <= 1 then 0
    else CountPairs(m, k - 1, kind) + (if Classify(m[k - 2].end, m[k - 1].base) == kind then 1 else 0)
  }

  /** Index of the first degenerate entry, if any. */
  function FirstDegenerate(m: seq<Entry>): (r: Option<nat>)
    ensures r.Some? ==> r.value < |m| && Degenerate(m[r.value]) && forall j :: 0 <= j < r.value ==> !Degenerate(m[j])
    ensures r.None? ==> forall j :: 0 <= j < |m| ==> !Degenerate(m[j])
  {
    if m == [] then None
    else if Degenerate(m[0]) then Some(0)
    else match FirstDegenerate(m[1..])
      case None => None
      case Some(k) => Some(k + 1)
  }

  /** Where the sanity pass stops: at the first degenerate entry, else after the last. */
  function StopIndex(m: seq<Entry>): (r: nat)
    ensures r <= |m|
  {
    match FirstDegenerate(m)
    case Some(d) => d
    case None => |m|
  }

  /** No neighbouring pair overlaps. */
  lemma {:induction false} NoOverlapPairs(m: seq<Entry>, k: nat)
    requires k <= |m|
    requires CountPairs(m, k, Overlap) == 0
    ensures forall i :: 1 <= i < k ==> m[i - 1].end < m[i].base
  {
    if k > 1 {
      NoOverlapPairs(m, k - 1);
    }
  }

  /**
   * A sorted map of well-formed entries with no overlapping neighbours is a
   * list of disjoint, strictly increasing intervals.
   */
  lemma {:induction false} SortedNoOverlapDisjoint(m: seq<Entry>)
    requires forall j :: 0 <= j < |m| ==> !Degenerate(m[j])
    requires CountPairs(m, |m|, Overlap) == 0
    ensures forall i, j :: 0 <= i < j < |m| ==> m[i].end < m[j].base
  {
    NoOverlapPairs(m, |m|);
    forall i, j | 0 <= i < j < |m| ensures m[i].end < m[j].base {
      ChainDisjoint(m, i, j);
    }
  }

  lemma {:induction false} ChainDisjoint(m: seq<Entry>, i: nat, j: nat)
    requires i < j < |m|
    requires forall t :: 0 <= t < |m| ==> !Degenerate(m[t])
    requires forall t :: 1 <= t < |m| ==> m[t - 1].end < m[t].base
    ensures m[i].end < m[j].base
  {
    if j > i + 1 {
      ChainDisjoint(m, i, j - 1);
    }
  }

  /** Holes plus adjacencies plus overlaps account for every neighbouring pair. */
  lemma {:induction false} PairsPartition(m: seq<Entry>, k: nat)
    requires 1 <= k <= |m|
    ensures CountPairs(m, k, Hole) + CountPairs(m, k, Adjacent) + CountPairs(m, k, Overlap) == k - 1
  {
    if k > 1 {
      PairsPartition(m, k - 1);
    }
  }

  /** Index of the first map entry whose [Base, End] holds `a`, if any. */
  function FirstContaining(m: seq<Entry>, a: u64): (r: Option<nat>)
    ensures r.Some? ==> r.value < |m| && m[r.value].base <= a <= m[r.value].end
    ensures r.Some? ==> forall j :: 0 <= j < r.value ==> !(m[j].base <= a <= m[j].end)
    ensures r.None? ==> forall j :: 0 <= j < |m| ==> !(m[j].base <= a <= m[j].end)
  {
    if m == [] then None
    else if m[0].base <= a <= m[0].end then Some(0)
    else match FirstContaining(m[1..], a)
      case None => None
      case Some(k) => Some(k + 1)
  }

  /**
   * One disk read of a physical-address reader: the map entry it came from,
   * the physical address it starts at, the disk offset it reads from, the
   * index in the caller's buffer it lands at, and its length.
   */
  datatype Chunk = Chunk(index: nat, address: u64, diskOffset: u64, dest: nat, count: nat)

  /** Copies disk[off, off + count) into buf at dest when both ranges exist; otherwise buf is unchanged. */
  function CopyIn(buf: seq<u8>, dest: nat, disk: seq<u8>, off: nat, count: nat): (r: seq<u8>)
    ensures |r| == |buf|
    ensures off + count <= |disk| && dest + count <= |buf| ==>
              r[dest..dest + count] == disk[off..off + count]
              && r[..dest] == buf[..dest] && r[dest + count..] == buf[dest + count..]
    ensures !(off + count <= |disk| && dest + count <= |buf|) ==> r == buf
  {
    if off + count <= |disk| && dest + count <= |buf| then buf[..dest] + disk[off..off + count] + buf[dest + count..]
    else buf
  }

  /** The buffer after performing the reads in order. */
  function ApplyChunks(buf: seq<u8>, disk: seq<u8>, chunks: seq<Chunk>): (r: seq<u8>)
    ensures |r| == |buf|
    decreases |chunks|
  {
    if chunks == [] then buf
    else ApplyChunks(CopyIn(buf, chunks[0].dest, disk, chunks[0].diskOffset, chunks[0].count), disk, chunks[1..])
  }

  /** Total length of a list of reads. */
  function SumCounts(chunks: seq<Chunk>): nat
  {
    if chunks == [] then 0 else SumCounts(chunks[..|chunks| - 1]) + chunks[|chunks| - 1].count
  }

  /** Performing one more read after a list of reads. */
  lemma {:induction false} ApplyChunksSnoc(buf: seq<u8>, disk: seq<u8>, chunks: seq<Chunk>, c: Chunk)
    ensures ApplyChunks(buf, disk, chunks + [c]) ==
              CopyIn(ApplyChunks(buf, disk, chunks), c.dest, disk, c.diskOffset, c.count)
    decreases |chunks|
  {
    if chunks != [] {
      assert (chunks + [c])[1..] == chunks[1..] + [c];
      ApplyChunksSnoc(CopyIn(buf, chunks[0].dest, disk, chunks[0].diskOffset, chunks[0].count), disk, chunks[1..], c);
    }
  }

  lemma SumCountsSnoc(chunks: seq<Chunk>, c: Chunk)
    ensures SumCounts(chunks + [c]) == SumCounts(chunks) + c.count
  {
    assert (chunks + [c])[..|chunks|] == chunks;
  }

  /**
   * A positioned device read of `count` bytes at disk offset `off` into the
   * caller's buffer at `dest` (SetPos followed by Read). When the range lies
   * outside the store or the buffer, nothing is copied.
   */
  method CopyToBuffer(buffer: array<u8>, dest: nat, disk: seq<u8>, off: nat, count: nat)
    modifies buffer
    ensures buffer[..] == CopyIn(old(buffer[..]), dest, disk, off, count)
  {
    if off + count <= |disk| && dest + count <= buffer.Length {
      var i := 0;
      while i < count
        invariant i <= count
        invariant forall t :: 0 <= t < buffer.Length ==>
                    buffer[t] == if dest <= t < dest + i then disk[off + t - dest] else old(buffer[t])
      {
        buffer[dest + i] := disk[off + i];
        i := i + 1;
      }
      assert buffer[..] == CopyIn(old(buffer[..]), dest, disk, off, count);
    }
  }

  // ------------------------------------------------------ filling from DDR sections

  /** The map record filled from a DDR section; the zeroed allocation leaves Contiguous FALSE. */
  function MapEntryOf(s: SectionHeader): Entry
  {
    Entry(DdrBase(s), EndOf(DdrBase(s), s.size), s.size, s.offset, false, 0, 0)
  }

  function FillFrom(run: seq<SectionHeader>): seq<Entry>
  {
    seq(|run|, i requires 0 <= i < |run| => MapEntryOf(run[i]))
  }

  /** The fill loop: copies sections into the zeroed map until one is not a DDR section. */
  method FillDdrMap(run: seq<SectionHeader>, a: array<Entry>) returns (filled: nat, total: u64)
    requires |run| == a.Length < U32_LIMIT
    requires forall j :: 0 <= j < a.Length ==> a[j] == ZeroEntry
    modifies a
    ensures filled == match FirstNotOfType(run, RAW_DUMP_SECTION_TYPE_DDR_RANGE) case Some(b) => b case None => |run|
    ensures a[..] == FillFrom(run[..filled]) + seq(|run| - filled, _ => ZeroEntry)
    ensures total == SumSizeOfType(run[..filled], RAW_DUMP_SECTION_TYPE_DDR_RANGE)
  {
    ghost var stop := match FirstNotOfType(run, RAW_DUMP_SECTION_TYPE_DDR_RANGE) case Some(b) => b case None => |run|;
    filled, total := 0, 0;
    while filled < |run| && run[filled].sectionType == RAW_DUMP_SECTION_TYPE_DDR_RANGE
      invariant filled <= stop <= |run|
      invariant a[..] == FillFrom(run[..filled]) + seq(|run| - filled, _ => ZeroEntry)
      invariant total == SumSizeOfType(run[..filled], RAW_DUMP_SECTION_TYPE_DDR_RANGE)
    {
      SumStep(run, filled);
      FillStep(run, a[..], filled);
      a[filled] := MapEntryOf(run[filled]);
      total := Add64(total, run[filled].size);
      filled := filled + 1;
    }
  }

  lemma FillStep(run: seq<SectionHeader>, m: seq<Entry>, k: nat)
    requires k < |run|
    requires m == FillFrom(run[..k]) + seq(|run| - k, _ => ZeroEntry)
    ensures m[k := MapEntryOf(run[k])] == FillFrom(run[..k + 1]) + seq(|run| - (k + 1), _ => ZeroEntry)
  {
  }

  lemma SumStep(run: seq<SectionHeader>, k: nat)
    requires k < |run| && run[k].sectionType == RAW_DUMP_SECTION_TYPE_DDR_RANGE
    ensures SumSizeOfType(run[..k + 1], RAW_DUMP_SECTION_TYPE_DDR_RANGE)
            == Add64(SumSizeOfType(run[..k], RAW_DUMP_SECTION_TYPE_DDR_RANGE), run[k].size)
  {
    assert run[..k + 1][..k] == run[..k];
  }

  /** No entry of the map is marked Contiguous. */
  predicate NoneContiguous(m: seq<Entry>)
  {
    forall i :: 0 <= i < |m| ==> !m[i].contiguous
  }

  /** A map filled up to section b, the rest left zeroed, has no Contiguous entry. */
  lemma PartialFillNotContiguous(run: seq<SectionHeader>, b: nat, rest: nat)
    requires b <= |run|
    ensures NoneContiguous(FillFrom(run[..b]) + seq(rest, _ => ZeroEntry))
  {
    var m := FillFrom(run[..b]) + seq(rest, _ => ZeroEntry);
    forall i | 0 <= i < |m| ensures !m[i].contiguous {
      if i < b {
        assert m[i] == MapEntryOf(run[i]);
      } else {
        assert m[i] == ZeroEntry;
      }
    }
  }

  lemma FillFromNotContiguous(run: seq<SectionHeader>)
    ensures forall i :: 0 <= i < |FillFrom(run)| ==> !FillFrom(run)[i].contiguous
  {
  }

  lemma PermutationKeepsNotContiguous(before: seq<Entry>, after: seq<Entry>)
    requires multiset(before) == multiset(after)
    requires forall i :: 0 <= i < |before| ==> !before[i].contiguous
    ensures forall i :: 0 <= i < |after| ==> !after[i].contiguous
  {
    forall i | 0 <= i < |after| ensures !after[i].contiguous {
      assert after[i] in multiset(after);
      assert after[i] in multiset(before);
      var j :| 0 <= j < |before| && before[j] == after[i];
    }
  }

  // ------------------------------------------------------ address translation

  /**
   * bytesToRead: up to the section's End or the request's last byte,
   * whichever comes first, computed in UINT64 and cast to UINT32.
   */
  function ChunkLength(sectionEnd: u64, addressEnd: u64, addressStart: u64): (r: u32)
    ensures addressStart <= Min(sectionEnd, addressEnd) && Min(sectionEnd, addressEnd) - addressStart + 1 < U32_LIMIT ==>
              r == Min(sectionEnd, addressEnd) - addressStart + 1
  {
    if sectionEnd >= addressEnd then Trunc32(Add64(Sub64(addressEnd, addressStart), 1))
    else Trunc32(Add64(Sub64(sectionEnd, addressStart), 1))
  }

  /** The disk offset of a physical address inside map entry e: diskoffset + (address - Base) + Offset, in UINT64. */
  function TranslateOffset(diskOffset: u64, e: Entry, address: u64): (r: u64)
    ensures e.base <= address && diskOffset + (address - e.base) + e.offset < U64_LIMIT ==>
              r == diskOffset + (address - e.base) + e.offset
  {
    Add64(Add64(diskOffset, Sub64(address, e.base)), e.offset)
  }

  /**
   * The reads of a successful request follow one another: the first starts
   * at pa and at the start of the buffer, each next one starts where the
   * previous ended, both in physical addresses and in the buffer, and none
   * is empty.
   */
  predicate Consecutive(chunks: seq<Chunk>, pa: u64)
    decreases |chunks|
  {
    if chunks == [] then true
    else if |chunks| == 1 then chunks[0].address == pa && chunks[0].dest == 0 && 1 <= chunks[0].count
    else
      var prev := chunks[|chunks| - 2];
      var last := chunks[|chunks| - 1];
      Consecutive(chunks[..|chunks| - 1], pa) && 1 <= last.count
      && last.address == prev.address + prev.count && last.dest == prev.dest + prev.count
  }

  // ------------------------------------------------------ reader plans

  /** The loop variables of the reader: index, addressStart, bytesRemain, sectionSpanCount and the buffer position. */
  datatype ReadState = ReadState(index: nat, start: u64, remain: u64, span: u32, dest: nat)

  /** A read the loop makes: it lies in its entry and uses the entry's offset and the request's end. */
  predicate ChunkFaithful(m: seq<Entry>, count: nat, diskOffset: u64, addressEnd: u64, c: Chunk)
    requires count <= |m|
  {
    c.index < count
    && m[c.index].base <= c.address <= m[c.index].end
    && c.diskOffset == TranslateOffset(diskOffset, m[c.index], c.address)
    && c.count == ChunkLength(m[c.index].end, addressEnd, c.address)
  }

  predicate AllFaithful(m: seq<Entry>, count: nat, diskOffset: u64, addressEnd: u64, chunks: seq<Chunk>)
    requires count <= |m|
  {
    forall k :: 0 <= k < |chunks| ==> ChunkFaithful(m, count, diskOffset, addressEnd, chunks[k])
  }

  lemma AllFaithfulSnoc(m: seq<Entry>, count: nat, diskOffset: u64, addressEnd: u64, chunks: seq<Chunk>, c: Chunk)
    requires count <= |m|
    requires AllFaithful(m, count, diskOffset, addressEnd, chunks) && ChunkFaithful(m, count, diskOffset, addressEnd, c)
    ensures AllFaithful(m, count, diskOffset, addressEnd, chunks + [c])
  {
    forall k | 0 <= k < |chunks + [c]| ensures ChunkFaithful(m, count, diskOffset, addressEnd, (chunks + [c])[k]) {
      if k < |chunks| {
        assert (chunks + [c])[k] == chunks[k];
      }
    }
  }

  /** The loop state of a read that has covered [pa, start) so far. */
  predicate CoveredSoFar(chunks: seq<Chunk>, pa: u64, addressEnd: u64, s: ReadState)
  {
    Consecutive(chunks, pa)
    && s.start as int + s.remain == addressEnd + 1 && 1 <= s.remain
    && s.dest == SumCounts(chunks) && s.start == pa + s.dest
    && (|chunks| > 0 ==> chunks[|chunks| - 1].address + chunks[|chunks| - 1].count == s.start
                         && chunks[|chunks| - 1].dest + chunks[|chunks| - 1].count == s.dest)
  }

  /** One more read in a covering read: it takes 1 to bytesRemain bytes and continues the run. */
  lemma CoverStep(chunks: seq<Chunk>, pa: u64, addressEnd: u64, s: ReadState, sectionEnd: u64,
                  index: nat, offset: u64, span: u32)
    requires addressEnd as int - pa + 1 < U32_LIMIT
    requires CoveredSoFar(chunks, pa, addressEnd, s) && s.start <= sectionEnd
    ensures var n := ChunkLength(sectionEnd, addressEnd, s.start);
            var c := Chunk(index, s.start, offset, s.dest, n);
            1 <= n <= s.remain && Sub64(s.remain, n) == s.remain - n
            && Consecutive(chunks + [c], pa) && SumCounts(chunks + [c]) == s.dest + n
            && (s.remain - n != 0 ==>
                  CoveredSoFar(chunks + [c], pa, addressEnd, ReadState(index, Add64(s.start, n), s.remain - n, span, s.dest + n)))
            && (s.remain - n == 0 ==> s.dest + n == addressEnd - pa + 1)
  {
    var n := ChunkLength(sectionEnd, addressEnd, s.start);
    assert n == Min(sectionEnd, addressEnd) - s.start + 1;
    var c := Chunk(index, s.start, offset, s.dest, n);
    var t := chunks + [c];
    SumCountsSnoc(chunks, c);
    assert t[..|t| - 1] == chunks;
    if chunks != [] {
      assert t[|t| - 2] == chunks[|chunks| - 1];
    }
  }
}
