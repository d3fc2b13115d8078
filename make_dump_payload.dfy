// The payload and padding the raw dump generator writes after the section
// table (tools/makeRawDump/makeDumpFile.cpp: WritePayload, WritePattern).
// The output DEVICE_IO is an `Output` object: the bytes written so far and
// the room the device has for more.
module MakeDumpPayload {
  import opened Machine
  import opened Status
  import opened RawDumpDefs
  import opened MakeDumpDefs

  // ------------------------------------------------------------ byte runs

  /** n bytes of the pattern repeated from its start. */
  function PatternRun(p: seq<u8>, n: nat): (r: seq<u8>)
    requires 0 < |p|
    ensures |r| == n
    decreases n
  {
    if n <= |p| then p[..n] else p + PatternRun(p, n - |p|)
  }

  /** Byte k of a run is byte k mod |p| of the pattern. */
  lemma {:induction false} PatternRunAt(p: seq<u8>, n: nat, k: nat)
    requires 0 < |p| && k < n
    ensures PatternRun(p, n)[k] == p[k % |p|]
    decreases n
  {
    if k < |p| {
      ModUnique(k, |p|, 0, k);
    } else {
      PatternRunAt(p, n - |p|, k - |p|);
      var q := (k - |p|) / |p|;
      assert k - |p| == |p| * q + (k - |p|) % |p|;
      assert k == |p| * (q + 1) + (k - |p|) % |p|;
      ModUnique(k, |p|, q + 1, (k - |p|) % |p|);
    }
  }

  /** The payload bytes from file offset `offset` on: OFFSET2VALUE of each offset. */
  function PayloadRun(offset: nat, n: nat): (r: seq<u8>)
    ensures |r| == n
    decreases n
  {
    if n == 0 then [] else PayloadRun(offset, n - 1) + [Offset2Value(offset + n - 1)]
  }

  /** Byte k of the payload from `offset` is the value of file offset offset + k. */
  lemma {:induction false} PayloadRunAt(offset: nat, n: nat, k: nat)
    requires k < n
    ensures PayloadRun(offset, n)[k] == Offset2Value(offset + k)
    decreases n
  {
    if k < n - 1 {
      PayloadRunAt(offset, n - 1, k);
    }
  }

  /** n zero bytes (paddPattern is a zero-initialised global). */
  function Zeros(n: nat): (r: seq<u8>)
    ensures |r| == n && forall k :: 0 <= k < n ==> r[k] == 0
  {
    seq(n, _ => 0)
  }

  /** A run that stopped at a whole number of patterns goes on with the pattern's first bytes. */
  lemma {:induction false} PatternRunExtend(p: seq<u8>, w: nat, c: nat)
    requires 0 < |p| && w % |p| == 0 && c <= |p|
    ensures PatternRun(p, w) + p[..c] == PatternRun(p, w + c)
    decreases w
  {
    if w == 0 {
      assert PatternRun(p, w) == [];
    } else {
      if w < |p| {
        ModUnique(w, |p|, 0, w);
      }
      if w == |p| {
        if c > 0 {
          assert PatternRun(p, w + c) == p + PatternRun(p, c);
        }
        assert p[..|p|] == p;
      } else {
        var q := w / |p|;
        assert w == |p| * q;
        assert w - |p| == |p| * (q - 1);
        ModUnique(w - |p|, |p|, q - 1, 0);
        PatternRunExtend(p, w - |p|, c);
        assert PatternRun(p, w) + p[..c] == p + (PatternRun(p, w - |p|) + p[..c]);
      }
    }
  }

  /** Output that holds a run from a whole number of patterns grows by the pattern's first bytes. */
  lemma PatternRunGrows(d0: seq<u8>, p: seq<u8>, w: nat, ps: nat, c: nat, data: seq<u8>, data': seq<u8>)
    requires 0 < |p| && w % |p| == 0 && c <= ps <= |p|
    requires data == d0 + PatternRun(p, w) && data' == data + p[..ps][..c]
    ensures data' == d0 + PatternRun(p, w + c)
  {
    PatternRunExtend(p, w, c);
    assert p[..ps][..c] == p[..c];
  }

  /** Repeating the zero buffer gives zeros. */
  lemma {:induction false} ZeroRun(n: nat)
    ensures PatternRun(Zeros(PADDING_BUFFER_SIZE), n) == Zeros(n)
    decreases n
  {
    if n > PADDING_BUFFER_SIZE {
      ZeroRun(n - PADDING_BUFFER_SIZE);
      assert Zeros(PADDING_BUFFER_SIZE) + Zeros(n - PADDING_BUFFER_SIZE) == Zeros(n);
    } else {
      assert Zeros(PADDING_BUFFER_SIZE)[..n] == Zeros(n);
    }
  }

  /** Offsets that differ by a multiple of the test pattern's size carry the same byte. */
  lemma SameValue(x: nat, y: nat)
    requires x % MIN_TEST_PATTERN_SIZE == y % MIN_TEST_PATTERN_SIZE
    ensures Offset2Value(x) == Offset2Value(y)
  {
    var r := x % MIN_TEST_PATTERN_SIZE;
    var qx, qy := x / MIN_TEST_PATTERN_SIZE, y / MIN_TEST_PATTERN_SIZE;
    assert x == TEST_PATTERN_SIZE * (4096 * qx) + r;
    assert y == TEST_PATTERN_SIZE * (4096 * qy) + r;
    ModUnique(x, TEST_PATTERN_SIZE, 4096 * qx + r / TEST_PATTERN_SIZE, r % TEST_PATTERN_SIZE);
    ModUnique(y, TEST_PATTERN_SIZE, 4096 * qy + r / TEST_PATTERN_SIZE, r % TEST_PATTERN_SIZE);
  }

  /** Numbers with the same remainder keep the same remainder when k is added to both. */
  lemma ModShift(x: nat, y: nat, k: nat, m: nat)
    requires 0 < m && x % m == y % m
    ensures (x + k) % m == (y + k) % m
  {
    var r := x % m;
    var a, b, c := x / m, y / m, (r + k) / m;
    assert r + k == m * c + (r + k) % m;
    assert x + k == m * (a + c) + (r + k) % m;
    assert y + k == m * (b + c) + (r + k) % m;
    ModUnique(x + k, m, a + c, (r + k) % m);
    ModUnique(y + k, m, b + c, (r + k) % m);
  }

  /** Payload runs from offsets with the same place in the test pattern are equal. */
  lemma PayloadShift(x: nat, y: nat, n: nat)
    requires x % MIN_TEST_PATTERN_SIZE == y % MIN_TEST_PATTERN_SIZE
    ensures PayloadRun(x, n) == PayloadRun(y, n)
  {
    forall k | 0 <= k < n
      ensures PayloadRun(x, n)[k] == PayloadRun(y, n)[k]
    {
      PayloadRunAt(x, n, k);
      PayloadRunAt(y, n, k);
      ModShift(x, y, k, MIN_TEST_PATTERN_SIZE);
      SameValue(x + k, y + k);
    }
  }

  /** Consecutive payload runs make one run. */
  lemma PayloadRunAppend(offset: nat, a: nat, b: nat)
    ensures PayloadRun(offset, a) + PayloadRun(offset + a, b) == PayloadRun(offset, a + b)
  {
    var joined, whole := PayloadRun(offset, a) + PayloadRun(offset + a, b), PayloadRun(offset, a + b);
    forall k | 0 <= k < |whole|
      ensures joined[k] == whole[k]
    {
      PayloadRunAt(offset, a + b, k);
      if k < a {
        PayloadRunAt(offset, a, k);
      } else {
        PayloadRunAt(offset + a, b, k - a);
      }
    }
  }

  /** The test pattern: byte i is OFFSET2VALUE(i), the payload value of file offset i. */
  ghost predicate IsTestPattern(tp: seq<u8>)
  {
    && |tp| == MIN_TEST_PATTERN_SIZE
    && forall k :: 0 <= k < |tp| ==> tp[k] == Offset2Value(k)
  }

  /** The test pattern repeated from its start is the payload from offset 0. */
  lemma TestPatternRun(tp: seq<u8>, n: nat)
    requires IsTestPattern(tp)
    ensures PatternRun(tp, n) == PayloadRun(0, n)
  {
    forall k | 0 <= k < n
      ensures PatternRun(tp, n)[k] == PayloadRun(0, n)[k]
    {
      PatternRunAt(tp, n, k);
      PayloadRunAt(0, n, k);
      ModUnique(k % MIN_TEST_PATTERN_SIZE, MIN_TEST_PATTERN_SIZE, 0, k % MIN_TEST_PATTERN_SIZE);
      SameValue(k % MIN_TEST_PATTERN_SIZE, k);
    }
  }

  /** A piece of the test pattern is the payload from the piece's start. */
  lemma TestPatternPiece(tp: seq<u8>, pb: nat, first: nat)
    requires IsTestPattern(tp) && pb + first <= MIN_TEST_PATTERN_SIZE
    ensures tp[pb..][..first] == PayloadRun(pb, first)
  {
    forall k | 0 <= k < first
      ensures tp[pb..][..first][k] == PayloadRun(pb, first)[k]
    {
      PayloadRunAt(pb, first, k);
    }
  }

  /** The bytes of the first, partial block: from the offset's place in the pattern to the pattern's end. */
  function FirstPiece(offset: nat): (n: nat)
    ensures n < MIN_TEST_PATTERN_SIZE
    ensures (offset + n) % MIN_TEST_PATTERN_SIZE == 0
    ensures n == 0 <==> offset % MIN_TEST_PATTERN_SIZE == 0
  {
    var pb := offset % MIN_TEST_PATTERN_SIZE;
    var q := offset / MIN_TEST_PATTERN_SIZE;
    if pb == 0 then 0
    else
      assert offset + (MIN_TEST_PATTERN_SIZE - pb) == MIN_TEST_PATTERN_SIZE * (q + 1);
      ModUnique(offset + (MIN_TEST_PATTERN_SIZE - pb), MIN_TEST_PATTERN_SIZE, q + 1, 0);
      MIN_TEST_PATTERN_SIZE - pb
  }

  /**
   * The test pattern written from the offset's place in it (first bytes,
   * at most to its end) and then repeated from its start (rest bytes) is
   * the payload of the file offsets from `offset` on, provided the first
   * piece reached the pattern's end whenever anything followed it.
   */
  lemma PatternFromOffset(tp: seq<u8>, offset: nat, first: nat, rest: nat)
    requires IsTestPattern(tp)
    requires first <= MIN_TEST_PATTERN_SIZE - offset % MIN_TEST_PATTERN_SIZE
    requires rest > 0 ==> first == FirstPiece(offset)
    ensures tp[offset % MIN_TEST_PATTERN_SIZE..][..first] + PatternRun(tp, rest) == PayloadRun(offset, first + rest)
  {
    var pb := offset % MIN_TEST_PATTERN_SIZE;
    TestPatternPiece(tp, pb, first);
    ModUnique(pb, MIN_TEST_PATTERN_SIZE, 0, pb);
    PayloadShift(pb, offset, first);
    TestPatternRun(tp, rest);
    if rest > 0 {
      ModUnique(0, MIN_TEST_PATTERN_SIZE, 0, 0);
      PayloadShift(0, offset + first, rest);
    }
    PayloadRunAppend(offset, first, rest);
  }

  // ------------------------------------------------------------ the output

  /**
   * The output DEVICE_IO: the bytes written so far, and how many bytes the
   * device can hold (the partition's length, or what the file system
   * lets a file grow to). partitionSize is GetCurrentPartitionSize.
   */
  class Output {
    var data: seq<u8>
    const capacity: u64
    const partitionSize: u64

    predicate Valid()
      reads this
    {
      |data| <= capacity
    }

    /** The bytes the device can still take. */
    function Room(): nat
      reads this
      requires Valid()
    {
      capacity - |data|
    }

    constructor (data: seq<u8>, capacity: u64, partitionSize: u64)
      requires |data| <= capacity
      ensures Valid() && this.data == data && this.capacity == capacity && this.partitionSize == partitionSize
    {
      this.data := data;
      this.capacity := capacity;
      this.partitionSize := partitionSize;
    }

    /**
     * DEVICE_IO::Write. An empty buffer, or a device with no room left
     * (IO_ERROR_EOF), gives E_FAIL with nothing written; otherwise the
     * write is clamped to the room left and succeeds, even when partial.
     */
    method Write(buf: seq<u8>) returns (hr: HResult, written: nat)
      requires Valid()
      modifies this
      ensures Valid() && written <= |buf|
      ensures hr == S_OK <==> 0 < |buf| && 0 < old(Room())
      ensures hr != S_OK ==> hr == E_FAIL && written == 0
      ensures hr == S_OK ==> written == Min(|buf|, old(Room())) && 0 < written
      ensures data == old(data) + buf[..written]
    {
      if |buf| == 0 || capacity == |data| {
        assert buf[..0] == [];
        return E_FAIL, 0;
      }
      written := Min(|buf|, capacity - |data|);
      data := data + buf[..written];
      hr := S_OK;
    }
  }

  // ------------------------------------------------------------ WritePattern

  /**
   * WritePattern. Zero sizes give E_INVALIDARG with nothing written (and
   * *bytesWritten left unset; 0 here). Otherwise the pattern is written
   * again and again from its start, each write shortened to what is left
   * to write only once that is less than the pattern, until nothing is
   * left or a write fails. The first write is never shortened: with
   * writeSize below the pattern size it writes more than asked, the UINT64
   * count left wraps, and the writes go on until the device is full.
   * bytesWritten is the number of bytes written, modulo 2^64.
   */
  method WritePattern(out: Output, pattern: seq<u8>, writeSize: u64) returns (hr: HResult, bytesWritten: u64)
    requires out.Valid() && |pattern| < U64_LIMIT
    modifies out
    ensures out.Valid() && |old(out.data)| <= |out.data|
    ensures |pattern| == 0 || writeSize == 0 ==> hr == E_INVALIDARG && out.data == old(out.data) && bytesWritten == 0
    ensures 0 < |pattern| && 0 < writeSize ==>
              var w := |out.data| - |old(out.data)|;
              && out.data == old(out.data) + PatternRun(pattern, w)
              && PatternWritten(|pattern|, writeSize, old(out.Room()), w, hr, bytesWritten)
  {
    if |pattern| == 0 || writeSize == 0 {
      return E_INVALIDARG, 0;
    }
    ghost var d0 := out.data;
    ghost var room0 := out.Room();
    ghost var w: nat := 0;
    var bytesToWrite: u64 := writeSize;
    var patternSize: nat := |pattern|;
    bytesWritten := 0;
    hr := S_OK;
    assert out.data == d0 + PatternRun(pattern, 0);
    PatternLoopStart(|pattern|, writeSize, room0);
    while bytesToWrite > 0
      invariant out.Valid() && |out.data| == |d0| + w
      invariant out.data == d0 + PatternRun(pattern, w)
      invariant PatternLoop(|pattern|, writeSize, room0, w, bytesToWrite, patternSize, bytesWritten)
      invariant patternSize <= |pattern| && room0 == out.capacity - |d0|
      invariant hr == S_OK
      decreases room0 - w
    {
      ghost var before := out.data;
      var wr, bWrite := out.Write(pattern[..patternSize]);
      if wr != S_OK {
        hr := wr;
        break;
      }
      PatternTurn(d0, pattern, writeSize, room0, w, bytesToWrite, patternSize, bytesWritten, bWrite, before, out.data);
      bytesToWrite := Sub64(bytesToWrite, bWrite);
      bytesWritten := Add64(bytesWritten, bWrite);
      if bytesToWrite < patternSize {
        patternSize := bytesToWrite;
      }
      w := w + bWrite;
    }
    PatternLoopExit(|pattern|, writeSize, room0, w, bytesToWrite, patternSize, bytesWritten, hr);
  }

  /**
   * What WritePattern reports after writing w bytes of a p-byte pattern
   * to a device with room0 bytes of room, when asked for writeSize bytes:
   * it wrote no more than the room; bytesWritten is w modulo 2^64; it
   * succeeds exactly when w is writeSize modulo 2^64, and otherwise fails
   * with E_FAIL having filled the device; with writeSize at least the
   * pattern size it wrote writeSize bytes or filled the device, and with
   * less it wrote at least a whole pattern or filled the device.
   */
  ghost predicate PatternWritten(p: nat, writeSize: u64, room0: nat, w: nat, hr: HResult, bytesWritten: u64)
  {
    && w <= room0
    && bytesWritten == w % U64_LIMIT
    && (hr == S_OK <==> (writeSize - w) % U64_LIMIT == 0)
    && (hr != S_OK ==> hr == E_FAIL && w == room0)
    && (p <= writeSize ==> w == Min(writeSize, room0))
    && (writeSize < p ==> w >= Min(p, room0))
  }

  /**
   * What the counters of WritePattern's loop keep, after w bytes of a
   * pattern of p bytes were written to a device that had room0 bytes of
   * room: bt is bytesToWrite, ps patternSize, bw *bytesWritten.
   */
  ghost predicate PatternLoop(p: nat, writeSize: u64, room0: nat, w: nat, bt: u64, ps: nat, bw: u64)
    requires 0 < p
  {
    && w <= room0
    && bw == w % U64_LIMIT
    && bt == (writeSize - w) % U64_LIMIT
    && ps == (if w == 0 then p else Min(p, bt))
    && (bt > 0 && w < room0 ==> w % p == 0)
    && (p <= writeSize ==> w <= writeSize)
    && (w == 0 || w >= Min(p, room0))
  }

  /** PatternLoop holds before the first write. */
  lemma PatternLoopStart(p: nat, writeSize: u64, room0: nat)
    requires 0 < p
    ensures PatternLoop(p, writeSize, room0, 0, writeSize, p, 0)
  {
    ModUnique(writeSize, U64_LIMIT, 0, writeSize);
    ModUnique(0, p, 0, 0);
  }

  /** One successful write of c bytes keeps PatternLoop. */
  lemma PatternLoopStep(p: nat, writeSize: u64, room0: nat, w: nat, bt: u64, ps: nat, bw: u64, c: nat)
    requires 0 < p < U64_LIMIT && PatternLoop(p, writeSize, room0, w, bt, ps, bw)
    requires 0 < bt && w < room0 && c == Min(ps, room0 - w)
    ensures var bt' := Sub64(bt, c);
            PatternLoop(p, writeSize, room0, w + c, bt', if bt' < ps then bt' else ps, Add64(bw, c))
  {
    var bt' := Sub64(bt, c);
    StepCounts(writeSize, w, c);
    if w + c < room0 && ps == p {
      StepMultiple(p, w);
    }
    if p <= writeSize {
      StepUnwrapped(writeSize, w, bt, c, bt');
    }
  }

  /** One successful write of c bytes of pattern[..ps]: the data and the counters after it. */
  lemma PatternTurn(d0: seq<u8>, p: seq<u8>, writeSize: u64, room0: nat, w: nat, bt: u64, ps: nat, bw: u64, c: nat,
                    data: seq<u8>, data': seq<u8>)
    requires 0 < |p| < U64_LIMIT && PatternLoop(|p|, writeSize, room0, w, bt, ps, bw)
    requires 0 < bt && w < room0 && ps <= |p| && c == Min(ps, room0 - w)
    requires data == d0 + PatternRun(p, w) && data' == data + p[..ps][..c]
    ensures data' == d0 + PatternRun(p, w + c)
    ensures var bt' := Sub64(bt, c);
            PatternLoop(|p|, writeSize, room0, w + c, bt', if bt' < ps then bt' else ps, Add64(bw, c))
  {
    PatternRunGrows(d0, p, w, ps, c, data, data');
    PatternLoopStep(|p|, writeSize, room0, w, bt, ps, bw, c);
  }

  /** A whole pattern more keeps a multiple of the pattern size. */
  lemma StepMultiple(p: nat, w: nat)
    requires 0 < p && w % p == 0
    ensures (w + p) % p == 0
  {
    var q := w / p;
    assert w == p * q;
    assert w + p == p * (q + 1);
    ModUnique(w + p, p, q + 1, 0);
  }

  /** While no more than writeSize bytes were written, bytesToWrite does not wrap. */
  lemma StepUnwrapped(writeSize: u64, w: nat, bt: u64, c: nat, bt': u64)
    requires w <= writeSize && bt == (writeSize - w) % U64_LIMIT && c <= bt && bt' == Sub64(bt, c)
    ensures bt == writeSize - w && bt' == writeSize - (w + c)
  {
    ModUnique(writeSize - w, U64_LIMIT, 0, writeSize - w);
  }

  /** What PatternLoop says once the loop is left: bytesToWrite is 0 or the device is full. */
  lemma PatternLoopExit(p: nat, writeSize: u64, room0: nat, w: nat, bt: u64, ps: nat, bw: u64, hr: HResult)
    requires 0 < p && PatternLoop(p, writeSize, room0, w, bt, ps, bw) && 0 < writeSize
    requires (bt == 0 && hr == S_OK) || (0 < bt && w == room0 && hr == E_FAIL)
    ensures PatternWritten(p, writeSize, room0, w, hr, bw)
  {
    if p <= writeSize && bt == 0 {
      ModUnique(writeSize - w, U64_LIMIT, 0, writeSize - w);
    }
  }

  /** The two UINT64 counters after a write of c more bytes. */
  lemma StepCounts(writeSize: u64, w: nat, c: nat)
    requires c < U64_LIMIT
    ensures Sub64((writeSize - w) % U64_LIMIT, c) == (writeSize - (w + c)) % U64_LIMIT
    ensures Add64(w % U64_LIMIT, c) == (w + c) % U64_LIMIT
  {
    var a := (writeSize - w) % U64_LIMIT;
    var qa := (writeSize - w) / U64_LIMIT;
    assert writeSize - w == U64_LIMIT * qa + a;
    var b := (a - c) % U64_LIMIT;
    var qb := (a - c) / U64_LIMIT;
    assert a - c == U64_LIMIT * qb + b;
    assert writeSize - (w + c) == U64_LIMIT * (qa + qb) + b;
    ModUnique(writeSize - (w + c), U64_LIMIT, qa + qb, b);
    var qw := w / U64_LIMIT;
    assert w == U64_LIMIT * qw + w % U64_LIMIT;
    ModUnique(w + c, U64_LIMIT, qw + (w % U64_LIMIT + c) / U64_LIMIT, (w % U64_LIMIT + c) % U64_LIMIT);
  }

  /** A WritePattern that succeeded wrote exactly what was asked: the "incomplete write" checks never fire. */
  lemma PatternWriteComplete(p: nat, writeSize: u64, room0: nat, w: nat, hr: HResult, bytesWritten: u64)
    requires PatternWritten(p, writeSize, room0, w, hr, bytesWritten) && hr == S_OK && room0 < U64_LIMIT
    ensures bytesWritten == writeSize && w == writeSize
  {
    var q := (writeSize - w) / U64_LIMIT;
    assert writeSize - w == U64_LIMIT * q;
    ModUnique(w, U64_LIMIT, -q, writeSize);
    ModUnique(w, U64_LIMIT, 0, w);
  }

  /** When the device has exactly writeSize bytes of room, WritePattern writes them all and succeeds. */
  lemma PatternExactRoom(p: nat, writeSize: u64, room0: nat, w: nat, hr: HResult, bytesWritten: u64)
    requires 0 < p && PatternWritten(p, writeSize, room0, w, hr, bytesWritten) && writeSize == room0
    ensures hr == S_OK && w == writeSize && bytesWritten == writeSize
  {
    ModUnique(0, U64_LIMIT, 0, 0);
    ModUnique(w, U64_LIMIT, 0, w);
  }

  /**
   * The over-run: asked for fewer bytes than the pattern holds, on a device
   * with room for the whole pattern, WritePattern goes on until the device
   * is full and fails.
   */
  lemma PatternOverrun(p: nat, writeSize: u64, room0: nat, w: nat, hr: HResult, bytesWritten: u64)
    requires PatternWritten(p, writeSize, room0, w, hr, bytesWritten) && 0 < writeSize < p <= room0 < U64_LIMIT
    ensures hr == E_FAIL && w == room0 && writeSize < w
  {
    if hr == S_OK {
      var q := (writeSize - w) / U64_LIMIT;
      ModUnique(writeSize - w, U64_LIMIT, q, 0);
      assert false;
    }
  }

  /** Writing c bytes and then r more, where r is what was left of b after c (in UINT64), writes b bytes modulo 2^64. */
  lemma SubThenAdd(b: u64, c: nat, r: nat)
    requires c < U64_LIMIT && r % U64_LIMIT == Sub64(b, c)
    ensures (c + r) % U64_LIMIT == b
  {
    var q := r / U64_LIMIT;
    var q' := (b - c) / U64_LIMIT;
    assert r == U64_LIMIT * q + Sub64(b, c);
    assert b - c == U64_LIMIT * q' + Sub64(b, c);
    ModUnique(c + r, U64_LIMIT, q - q', b);
  }

  // ------------------------------------------------------------ WritePayload

  /** Appending nothing leaves a sequence as it was. */
  lemma AppendNothing(s: seq<u8>, t: seq<u8>)
    requires |t| == 0
    ensures s + t == s
  {
  }

  /**
   * The counts of the payload part of WritePayload: hr1 and first are the
   * first block's status and length, hr2, rest and bw what WritePattern did
   * with the remaining bytes, and hr the status WritePayload goes on with;
   * room0 is the room on the device before the first block.
   */
  lemma PayloadCounts(offset: u64, b: u64, room0: nat, hr1: HResult, first: nat, remaining: u64,
                      hr2: HResult, rest: nat, bw: u64, hr: HResult)
    requires room0 < U64_LIMIT
    requires hr1 == S_OK ==> first == Min(FirstPiece(offset), room0) && remaining == Sub64(b, first)
    requires hr1 != S_OK ==> hr1 == E_FAIL && first == 0 && room0 == 0 < FirstPiece(offset) && rest == 0 && hr == hr1
    requires hr1 == S_OK && remaining == 0 ==> hr2 == E_INVALIDARG && rest == 0 && hr == hr2
    requires hr1 == S_OK && 0 < remaining ==>
               && PatternWritten(MIN_TEST_PATTERN_SIZE, remaining, room0 - first, rest, hr2, bw)
               && hr == (if hr2 != S_OK then hr2 else if remaining != bw then E_FAIL else S_OK)
    ensures first + rest <= room0
    ensures rest > 0 ==> (offset + first) % MIN_TEST_PATTERN_SIZE == 0
    ensures hr == S_OK || hr == E_FAIL || hr == E_INVALIDARG
    ensures hr == S_OK ==> first + rest == b
    ensures FirstPiece(offset) + MIN_TEST_PATTERN_SIZE <= b <= room0 ==> hr == S_OK
    ensures b == FirstPiece(offset) <= room0 ==> hr == E_INVALIDARG
  {
    if hr1 == S_OK && 0 < remaining && hr2 == S_OK {
      PatternWriteComplete(MIN_TEST_PATTERN_SIZE, remaining, room0 - first, rest, hr2, bw);
      SubThenAdd(b, first, rest);
      ModUnique(first + rest, U64_LIMIT, 0, first + rest);
    }
  }

  /** Appending the repeated pattern to the payload bytes up to a pattern boundary continues the payload. */
  lemma RunsJoin(d0: seq<u8>, tp: seq<u8>, offset: nat, first: nat, rest: nat, mid: seq<u8>, data: seq<u8>)
    requires IsTestPattern(tp)
    requires rest > 0 ==> (offset + first) % MIN_TEST_PATTERN_SIZE == 0
    requires mid == d0 + PayloadRun(offset, first)
    requires data == mid + PatternRun(tp, rest) || (rest == 0 && data == mid)
    ensures data == d0 + PayloadRun(offset, first + rest)
  {
    if data == mid {
      AppendNothing(mid, PatternRun(tp, rest));
    }
    TestPatternRun(tp, rest);
    if rest > 0 {
      ModUnique(0, MIN_TEST_PATTERN_SIZE, 0, 0);
      PayloadShift(0, offset + first, rest);
    }
    PayloadRunAppend(offset, first, rest);
    assert data == d0 + (PayloadRun(offset, first) + PayloadRun(offset + first, rest));
  }

  /** The loop that fills testPattern: byte i is (i mod TEST_PATTERN_SIZE) + TEST_PATTERN_BEGIN. */
  method FillTestPattern(a: array<u8>)
    requires a.Length == MIN_TEST_PATTERN_SIZE
    modifies a
    ensures IsTestPattern(a[..])
  {
    for i := 0 to a.Length
      invariant forall k :: 0 <= k < i ==> a[k] == Offset2Value(k)
    {
      a[i] := i % TEST_PATTERN_SIZE + TEST_PATTERN_BEGIN;
    }
  }

  /**
   * The first block of WritePayload: when payloadOffset is not a multiple
   * of the test pattern's size, the tail of the test pattern from the
   * offset's position is written, so that the rest of the payload starts on
   * a pattern boundary; on success bytesForPayload is reduced by what was
   * written. The ghost first counts the bytes written.
   */
  method WriteFirstPiece(out: Output, testPattern: seq<u8>, offset: u64, bytesForPayload: u64)
    returns (hr: HResult, remaining: u64, ghost first: nat)
    requires out.Valid() && IsTestPattern(testPattern)
    modifies out
    ensures out.Valid() && out.data == old(out.data) + PayloadRun(offset, first)
    ensures first <= old(out.Room()) && out.Room() == old(out.Room()) - first
    ensures hr == S_OK || hr == E_FAIL
    ensures hr == S_OK ==> first == Min(FirstPiece(offset), old(out.Room())) && remaining == Sub64(bytesForPayload, first)
    ensures hr != S_OK ==> first == 0 && old(out.Room()) == 0 < FirstPiece(offset)
  {
    var patternBegin := offset % MIN_TEST_PATTERN_SIZE;
    remaining := bytesForPayload;
    hr, first := S_OK, 0;
    if patternBegin != 0 {
      var bWrite;
      hr, bWrite := out.Write(testPattern[patternBegin..]);
      first := bWrite;
      if hr == S_OK {
        remaining := Sub64(remaining, bWrite);
      }
      TestPatternPiece(testPattern, patternBegin, first);
      ModUnique(patternBegin, MIN_TEST_PATTERN_SIZE, 0, patternBegin);
      PayloadShift(patternBegin, offset, first);
    } else {
      AppendNothing(out.data, PayloadRun(offset, 0));
    }
  }

  /**
   * The payload part of WritePayload: the partial first block, from the
   * offset's place in the test pattern to the pattern's end (when the
   * offset is not at a pattern boundary), and then WritePattern of the
   * whole test pattern for the bytes still missing, counted in UINT64.
   * The ghost count n is the payload bytes that reached the device.
   */
  method WritePayloadData(out: Output, testPattern: seq<u8>, offset: u64, bytesForPayload: u64) returns (hr: HResult, ghost n: nat)
    requires out.Valid() && IsTestPattern(testPattern)
    modifies out
    ensures out.Valid() && n <= old(out.Room()) && out.Room() == old(out.Room()) - n
    ensures out.data == old(out.data) + PayloadRun(offset, n)
    ensures hr == S_OK || hr == E_FAIL || hr == E_INVALIDARG
    ensures hr == S_OK ==> n == bytesForPayload
    ensures FirstPiece(offset) + MIN_TEST_PATTERN_SIZE <= bytesForPayload <= old(out.Room()) ==> hr == S_OK
    ensures bytesForPayload == FirstPiece(offset) <= old(out.Room()) ==> hr == E_INVALIDARG
  {
    ghost var d0, room0 := out.data, out.Room();
    var remaining;
    ghost var first, hr1 := 0, S_OK;
    hr, remaining, first := WriteFirstPiece(out, testPattern, offset, bytesForPayload);
    hr1 := hr;
    ghost var mid := out.data;
    ghost var rest: nat := 0;
    ghost var hr2: HResult := hr;
    var bytesWritten: u64 := 0;
    if hr == S_OK {
      hr, bytesWritten := WritePattern(out, testPattern, remaining);
      hr2, rest := hr, |out.data| - |mid|;
      if hr == S_OK && remaining != bytesWritten {
        hr := E_FAIL;
      }
    }
    PayloadCounts(offset, bytesForPayload, room0, hr1, first, remaining, hr2, rest, bytesWritten, hr);
    n := first + rest;
    RunsJoin(d0, testPattern, offset, first, rest, mid, out.data);
  }


  /**
   * WritePayload: after the headers, the payload bytes (the test pattern
   * value of each file offset) from payloadOffset up to DumpSize, and then,
   * for a partition, zero padding up to the partition's end. The returned
   * ghost counts say how many payload and padding bytes reached the
   * device. As written, the padding is always written, and a padding of 0
   * bytes makes WritePattern fail with E_INVALIDARG: output to a file, or
   * a dump that fills its partition exactly, never succeeds.
   */
  method WritePayload(out: Output, cfg: Config) returns (hr: HResult, ghost payloadBytes: nat, ghost paddingBytes: nat)
    requires out.Valid()
    modifies out
    ensures out.Valid()
    ensures out.data == old(out.data) + PayloadRun(cfg.payloadOffset, payloadBytes) + Zeros(paddingBytes)
    ensures hr == S_OK || hr == E_FAIL || hr == E_INVALIDARG
    ensures hr == S_OK ==>
              && cfg.outputToPartition && cfg.dumpFileHeader.dumpSize < out.partitionSize
              && payloadBytes == Sub64(cfg.dumpFileHeader.dumpSize, cfg.payloadOffset)
              && paddingBytes == out.partitionSize - cfg.dumpFileHeader.dumpSize
    ensures cfg.outputToPartition && cfg.dumpFileHeader.dumpSize > out.partitionSize ==>
              hr == E_FAIL && out.data == old(out.data)
    ensures && cfg.outputToPartition
            && cfg.payloadOffset <= cfg.dumpFileHeader.dumpSize < out.partitionSize
            && FirstPiece(cfg.payloadOffset) + MIN_TEST_PATTERN_SIZE <= cfg.dumpFileHeader.dumpSize - cfg.payloadOffset
            && old(out.Room()) == out.partitionSize - cfg.payloadOffset
            ==> hr == S_OK
  {
    var dumpSize := cfg.dumpFileHeader.dumpSize;
    var bytesForPayload := Sub64(dumpSize, cfg.payloadOffset);
    var bytesForPadding: u64 := 0;
    var testPattern := new u8[MIN_TEST_PATTERN_SIZE];
    FillTestPattern(testPattern);
    payloadBytes, paddingBytes := 0, 0;
    hr := S_OK;
    if cfg.outputToPartition {
      if dumpSize > out.partitionSize {
        hr := E_FAIL;
      } else {
        bytesForPadding := out.partitionSize - dumpSize;
      }
    }
    if hr == S_OK {
      hr, payloadBytes := WritePayloadData(out, testPattern[..], cfg.payloadOffset, bytesForPayload);
    }
    if hr == S_OK {
      ghost var atPadding := out.data;
      ghost var roomForPadding := out.Room();
      var bytesWritten;
      hr, bytesWritten := WritePattern(out, Zeros(PADDING_BUFFER_SIZE), bytesForPadding);
      paddingBytes := |out.data| - |atPadding|;
      ZeroRun(paddingBytes);
      if 0 < bytesForPadding == roomForPadding {
        PatternExactRoom(PADDING_BUFFER_SIZE, bytesForPadding, roomForPadding, paddingBytes, hr, bytesWritten);
      }
      if hr == S_OK {
        PatternWriteComplete(PADDING_BUFFER_SIZE, bytesForPadding, roomForPadding, paddingBytes, hr, bytesWritten);
        if bytesForPadding != bytesWritten {
          hr := E_FAIL;
        }
      }
    }
  }
}
