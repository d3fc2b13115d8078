// The offline dump tool's search for Windows' in-memory dump header in a
// buffer read from the partition, and its check of the KdDebuggerDataBlock
// header (test/offdumptool/exe/Dumputil.cpp).
module OffdumpSearch {
  import opened Machine

  /** The 24-byte magic string Windows puts right before its in-memory dump header. */
  const DUMP_HEADER_MAGIC: seq<u8> :=
    [0x3B, 0x49, 0x53, 0x53, 0x94, 0x45, 0x2E, 0x30,
     0xD4, 0xCB, 0xDA, 0x97, 0xF1, 0x11, 0x02, 0xB5,
     0xE8, 0x36, 0x08, 0x61, 0x88, 0x70, 0x9B, 0x19]

  /** "PAGEDUMP", the signature of a 32-bit dump header. */
  const PAGEDUMP: seq<u8> := [0x50, 0x41, 0x47, 0x45, 0x44, 0x55, 0x4D, 0x50]

  /** "PAGEDU64", the signature of a 64-bit dump header. */
  const PAGEDU64: seq<u8> := [0x50, 0x41, 0x47, 0x45, 0x44, 0x55, 0x36, 0x34]

  /** magicstringlength: the magic string and an 8-byte signature. */
  const MAGIC_STRING_LENGTH: nat := 32

  /** The magic string starts at index i of b. */
  predicate MagicAt(b: seq<u8>, i: int)
  {
    0 <= i && i + 24 <= |b| && b[i .. i + 24] == DUMP_HEADER_MAGIC
  }

  /** The 8 bytes at index j of b are `kind`. */
  predicate KindAt(b: seq<u8>, j: int, kind: seq<u8>)
  {
    0 <= j && j + 8 <= |b| && b[j .. j + 8] == kind
  }

  /** A dump header whose magic string starts at index i: the magic, then PAGEDUMP or PAGEDU64. */
  predicate HeaderAt(b: seq<u8>, i: int)
  {
    MagicAt(b, i) && (KindAt(b, i + 24, PAGEDUMP) || KindAt(b, i + 24, PAGEDU64))
  }

  /** What the search leaves: its verdict, the `*offset` it wrote, the context's Is64Bit. */
  datatype SearchResult = SearchResult(found: bool, offset: int, is64Bit: bool)

  /**
   * The search loop from index i while i < limit. At every magic string it
   * writes offset = i + 24; a PAGEDUMP there ends the search found, a
   * PAGEDU64 also sets Is64Bit, and anything else clears the verdict and
   * goes on.
   */
  function Search(b: seq<u8>, limit: int, i: nat, r: SearchResult): SearchResult
    decreases limit - i
  {
    if i >= limit then r
    else if MagicAt(b, i) then
      if KindAt(b, i + 24, PAGEDUMP) then SearchResult(true, i + 24, r.is64Bit)
      else if KindAt(b, i + 24, PAGEDU64) then SearchResult(true, i + 24, true)
      else Search(b, limit, i + 1, SearchResult(false, i + 24, r.is64Bit))
    else Search(b, limit, i + 1, r)
  }

  /**
   * What the search promises: it is found exactly when some index in
   * [i, limit) holds a dump header; then `offset` is just past the magic of
   * the first one, and Is64Bit is set when that one is PAGEDU64 and kept
   * otherwise. When nothing is found, Is64Bit is kept, and `offset` is the
   * one given or just past the magic of a header with a wrong signature.
   */
  lemma {:induction false} SearchMeaning(b: seq<u8>, limit: int, i: nat, r: SearchResult)
    requires !r.found
    ensures var q := Search(b, limit, i, r);
            q.found <==> exists j :: i <= j < limit && HeaderAt(b, j)
    ensures var q := Search(b, limit, i, r);
            q.found ==> i <= q.offset - 24 < limit && HeaderAt(b, q.offset - 24)
                        && (forall j :: i <= j < q.offset - 24 ==> !HeaderAt(b, j))
                        && (q.is64Bit <==> r.is64Bit || KindAt(b, q.offset, PAGEDU64))
    ensures var q := Search(b, limit, i, r);
            !q.found ==> q.is64Bit == r.is64Bit && (q.offset == r.offset || MagicAt(b, q.offset - 24))
    decreases limit - i
  {
    if i < limit {
      if MagicAt(b, i) && (KindAt(b, i + 24, PAGEDUMP) || KindAt(b, i + 24, PAGEDU64)) {
        assert HeaderAt(b, i);
      } else {
        var r' := if MagicAt(b, i) then SearchResult(false, i + 24, r.is64Bit) else r;
        assert Search(b, limit, i, r) == Search(b, limit, i + 1, r');
        SearchMeaning(b, limit, i + 1, r');
        assert !HeaderAt(b, i);
        var q := Search(b, limit, i, r);
        if q.found {
          var w :| i + 1 <= w < limit && HeaderAt(b, w);
        } else {
          assert forall j :: i <= j < limit ==> !HeaderAt(b, j);
        }
      }
    }
  }

  /** The search as written: `i < buffersize - magicstringlength`. */
  function FindHeaderAsWritten(b: seq<u8>, bufferSize: nat, r: SearchResult): SearchResult
  {
    Search(b, bufferSize - MAGIC_STRING_LENGTH, 0, r)
  }

  /** The intended search: every index that leaves room for the 32 bytes, `i <= buffersize - magicstringlength`. */
  function FindHeader(b: seq<u8>, bufferSize: nat, r: SearchResult): SearchResult
  {
    Search(b, bufferSize - MAGIC_STRING_LENGTH + 1, 0, r)
  }

  /** The intended search finds a header exactly when one lies wholly inside the first bufferSize bytes. */
  lemma FindHeaderComplete(b: seq<u8>, bufferSize: nat, r: SearchResult)
    requires bufferSize <= |b| && !r.found
    ensures FindHeader(b, bufferSize, r).found <==> exists j :: 0 <= j && j + 32 <= bufferSize && HeaderAt(b, j)
  {
    SearchMeaning(b, bufferSize - MAGIC_STRING_LENGTH + 1, 0, r);
  }

  /**
   * The search as written misses a header that ends exactly at the end of
   * the buffer: a 32-byte buffer holding the magic and PAGEDUMP.
   */
  lemma AsWrittenMissesHeaderAtEnd(r: SearchResult)
    requires !r.found
    ensures var b := DUMP_HEADER_MAGIC + PAGEDUMP;
            HeaderAt(b, 0) && !FindHeaderAsWritten(b, 32, r).found && FindHeader(b, 32, r).found
  {
    var b := DUMP_HEADER_MAGIC + PAGEDUMP;
    assert b[0 .. 24] == DUMP_HEADER_MAGIC;
    assert b[24 .. 32] == PAGEDUMP;
  }

  /**
   * ISContainDumpHeader with the intended bound. `offset` and `is64Bit` are
   * the values of `*offset` and Context->Is64Bit before the call.
   */
  method ISContainDumpHeader(buffer: seq<u8>, bufferSize: nat, offset: int, is64Bit: bool)
    returns (found: bool, offset': int, is64Bit': bool)
    requires bufferSize <= |buffer| && bufferSize < 0x8000_0000
    ensures SearchResult(found, offset', is64Bit') == FindHeader(buffer, bufferSize, SearchResult(false, offset, is64Bit))
  {
    found, offset', is64Bit' := false, offset, is64Bit;
    var limit: int := bufferSize - MAGIC_STRING_LENGTH + 1;
    var i: nat := 0;
    while i < limit
      invariant Search(buffer, limit, i, SearchResult(found, offset', is64Bit'))
             == FindHeader(buffer, bufferSize, SearchResult(false, offset, is64Bit))
      invariant !found
      decreases limit - i
    {
      if buffer[i .. i + 24] == DUMP_HEADER_MAGIC {
        assert MagicAt(buffer, i);
        offset' := i + 24;
        if buffer[offset' .. offset' + 8] == PAGEDUMP {
          return true, offset', is64Bit';
        } else if buffer[offset' .. offset' + 8] == PAGEDU64 {
          return true, offset', true;
        }
        assert !KindAt(buffer, offset', PAGEDUMP) && !KindAt(buffer, offset', PAGEDU64);
      }
      i := i + 1;
    }
  }

  // ---------------------------------------------------------------- KdDebuggerDataBlock

  /** KDBG_TAG, the OwnerTag of a KdDebuggerDataBlock: the bytes "KDBG". */
  const KDBG_TAG: u32 := 0x4742_444B

  /** The OwnerTag and Size of the block's DBGKD_DEBUG_DATA_HEADER64. */
  datatype DebugDataHeader = DebugDataHeader(ownerTag: u32, size: u32)

  /**
   * The sizes of KDDEBUGGER_DATA64 in the current Windows and in its
   * Windows 8.1, 8.0, 7 and earlier layouts, in the order they are tried.
   */
  datatype KnownSizes = KnownSizes(current: u32, win81: u32, win80: u32, win70: u32, legacy: u32)

  function SizeList(k: KnownSizes): seq<u32>
  {
    [k.current, k.win81, k.win80, k.win70, k.legacy]
  }

  /**
   * ValidateKdDebuggerDataBlock: the header is accepted exactly when its
   * Size is one of the five known sizes and its OwnerTag is KDBG_TAG.
   */
  function ValidateKdDebuggerDataBlock(h: DebugDataHeader, k: KnownSizes): (valid: bool)
    ensures valid <==> (exists i :: 0 <= i < 5 && SizeList(k)[i] == h.size) && h.ownerTag == KDBG_TAG
  {
    if h.size == k.current || h.size == k.win81 || h.size == k.win80 || h.size == k.win70 || h.size == k.legacy then
      assert SizeList(k)[0] == k.current && SizeList(k)[1] == k.win81 && SizeList(k)[2] == k.win80;
      assert SizeList(k)[3] == k.win70 && SizeList(k)[4] == k.legacy;
      h.ownerTag == KDBG_TAG
    else false
  }
}
