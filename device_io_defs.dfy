// The values behind DEVICE_IO (common/include/Device_IO.h): device kinds,
// error codes, partition records, a snapshot of the object's fields, and the
// pure parts of its logic (readiness, the header's inline getters, the cache
// window test, name classification, cache sizing and the SafeIO arithmetic).
module DeviceIoDefs {
  import opened Machine
  import opened Status

  const INVALID_BLOCK: u64 := U64_MAX
  const INVALID_INDEX: u32 := U32_MAX
  const INVALID_DEVICE_ID: u32 := U32_MAX
  const MAX_DEV_ID_VALUE: u32 := 1000
  const DEFAULT_BLOCK_SIZE: u32 := 0x1000
  const DEFAULT_CACHE_BLOCK_COUNT: u32 := 0x2000
  const MAX_ULONG: u32 := 0xFFFF_FFFF
  const MAX_DWORD: u32 := 0xFFFF_FFFF
  /** The Win32 error ERROR_INVALID_PARAMETER. */
  const ERROR_INVALID_PARAMETER: u32 := 87
  /** The largest LARGE_INTEGER plus one: file offsets and sizes stay below it. */
  const LARGE_INTEGER_LIMIT: int := 0x8000_0000_0000_0000

  /** `\\.\PhysicalDrive`, the prefix of a physical disk's name. */
  const PHYSICAL_DEVICE_STRING: string := "\\\\.\\PhysicalDrive"

  datatype IoDeviceType =
    | UNINITIALIZED_DEVICE_TYPE
    | UNSUPPORTED_DEVICE_TYPE
    | RAW_DEVICE_TYPE
    | REMOVABLE_MEDIA_DEVICE_TYPE
    | PLAIN_FILE_DEVICE_TYPE

  /** The two kinds that are read in blocks through partitions. */
  predicate IsBlockDevice(t: IoDeviceType)
  {
    t == RAW_DEVICE_TYPE || t == REMOVABLE_MEDIA_DEVICE_TYPE
  }

  /** The IO_ERROR codes the modelled operations set. */
  datatype IoError =
    | IO_OK
    | IO_ERROR_INVALID_DEVICE_NAME
    | IO_ERROR_INVALID_DEVICE_ID
    | IO_ERROR_INVALID_HANDLE
    | IO_ERROR_INVALID_POSITION
    | IO_ERROR_GET_POSITION_FAILED
    | IO_ERROR_SET_POSITION_FAILED
    | IO_ERROR_DEVICE_NO_BLOCKS
    | IO_ERROR_NO_MEMORY
    | IO_ERROR_NULL_POINTER
    | IO_ERROR_INVALID_BUFFER_SIZE
    | IO_ERROR_READ_FILE
    | IO_ERROR_READ_PARTIAL
    | IO_ERROR_READ_COPY
    | IO_ERROR_CACHE_READ
    | IO_ERROR_CACHE_WRITE_SIZE
    | IO_ERROR_CACHE_INVALID
    | IO_ERROR_EOF
    | IO_ERROR_INVALID_DRIVE_LAYOUT
    | IO_ERROR_UNSUPPORTED_DEVICE_TYPE
    | IO_ERROR_PARTITION_NOT_SET
    | IO_ERROR_SET_NAME_ON_OPENED_DEVICE
    | IO_ERROR_SET_ID_ON_OPENED_DEVICE

  datatype PartitionStyle = PARTITION_STYLE_MBR | PARTITION_STYLE_GPT | PARTITION_STYLE_RAW

  /** The PARTITION_INFORMATION_EX fields the state logic uses. */
  datatype PartitionInfo = PartitionInfo(partitionStyle: PartitionStyle, startingOffset: u64,
                                         partitionLength: u64, partitionNumber: u32)

  /** DRIVE_LAYOUT_INFORMATION_EX: the style and the partition entries. */
  datatype DriveLayout = DriveLayout(partitionStyle: PartitionStyle, partitionEntry: seq<PartitionInfo>)

  /** IO_TYPE: SafeIO reads or writes; any other value is refused. */
  datatype IoType = IO_TYPE_READ | IO_TYPE_WRITE | IO_TYPE_OTHER(value: u32)

  /**
   * The fields of a DEVICE_IO object, with `hasCache` for a non-null
   * m_pCache, followed by the abstract OS side: the bytes of the opened
   * device or file, the handle's file pointer, the thread's last Win32 error
   * (which a successful ReadFile leaves as it is) and the bytes malloc can
   * still hand out.
   */
  datatype DeviceState = DeviceState(
    name: string, lastError: IoError, deviceType: IoDeviceType, id: u32,
    ndxCurrentPartition: u32, blockSize: u32,
    driveLayout: Option<DriveLayout>, currentPartition: Option<PartitionInfo>,
    currentPartitionBlockCount: u64, handleValid: bool,
    ioCurPos: u64, ioCurBlock: u64, ioBlockCount: u64, ioSize: u64,
    cacheCurBlock: u64, cacheCurOffset: u64, cacheBlockCount: u32, cacheSize: u32,
    hasCache: bool,
    disk: seq<u8>, osPos: nat, osError: u32, heapLimit: nat)

  /** ceil(a / b), the count of b-sized blocks that cover a bytes. */
  function CeilDiv(a: u64, b: u32): (r: u64)
    requires b > 0
    ensures r as int * b as int >= a as int
    ensures r as int * b as int < a as int + b as int
    ensures r == 0 <==> a == 0
  {
    var q := a / b as u64;
    var r := q + (if a % b as u64 != 0 then 1 else 0);
    assert a as int == q as int * b as int + (a % b as u64) as int;
    r
  }

  /** floor(a / b), the count of whole b-sized blocks in a bytes. */
  function FloorDiv(a: u64, b: u32): (r: u64)
    requires b > 0
    ensures r as int * b as int <= a as int < r as int * b as int + b as int
  {
    var q := a / b as u64;
    assert a as int == q as int * b as int + (a % b as u64) as int;
    q
  }

  /** The state Init gives a new object for a name and an ID, over a given store. */
  function InitialState(devName: string, devId: u32, store: seq<u8>, lastWin32Error: u32, heapBytes: nat): DeviceState
  {
    DeviceState(devName, IO_ERROR_INVALID_HANDLE, UNINITIALIZED_DEVICE_TYPE, devId, INVALID_INDEX, DEFAULT_BLOCK_SIZE,
                None, None, 0, false, 0, 0, 0, 0, INVALID_BLOCK, 0, DEFAULT_CACHE_BLOCK_COUNT, 0, false,
                store, 0, lastWin32Error, heapBytes)
  }

  /** The fields reads and seeks leave alone: what the device is, its geometry, its partition, and the OS side except the file pointer. */
  predicate KeepsGeometry(s: DeviceState, t: DeviceState)
  {
    && t.name == s.name && t.deviceType == s.deviceType && t.id == s.id
    && t.ndxCurrentPartition == s.ndxCurrentPartition && t.blockSize == s.blockSize
    && t.driveLayout == s.driveLayout && t.currentPartition == s.currentPartition
    && t.currentPartitionBlockCount == s.currentPartitionBlockCount && t.handleValid == s.handleValid
    && t.ioBlockCount == s.ioBlockCount && t.ioSize == s.ioSize
    && t.disk == s.disk && t.osError == s.osError && t.heapLimit == s.heapLimit
  }

  // ---------------------------------------------------------------- readiness

  /** IsDeviceReady: an open handle, and for a disk a drive layout. */
  predicate DeviceReady(s: DeviceState)
  {
    s.handleValid && (IsBlockDevice(s.deviceType) ==> s.driveLayout.Some?)
  }

  /** The code IsDeviceReady leaves in lastError: why the device is not ready, or lastError as it was. */
  function DeviceReadyError(s: DeviceState): IoError
  {
    if !s.handleValid then IO_ERROR_INVALID_HANDLE
    else if IsBlockDevice(s.deviceType) && s.driveLayout.None? then IO_ERROR_INVALID_DRIVE_LAYOUT
    else s.lastError
  }

  /** IsIoReady: the device is ready and a disk has a partition selected. */
  predicate IoReady(s: DeviceState)
  {
    DeviceReady(s) && !(IsBlockDevice(s.deviceType) && s.currentPartition.None?)
  }

  /** The code IsIoReady leaves in lastError. */
  function IoReadyError(s: DeviceState): IoError
  {
    if !DeviceReady(s) then DeviceReadyError(s)
    else if IsBlockDevice(s.deviceType) && s.currentPartition.None? then IO_ERROR_PARTITION_NOT_SET
    else s.lastError
  }

  /** The readiness checks leave lastError alone when they pass and otherwise record one of their failure codes. */
  lemma ReadyChecksOnlyRecordError(s: DeviceState)
    ensures IoReady(s) ==> DeviceReady(s) && IoReadyError(s) == s.lastError && DeviceReadyError(s) == s.lastError
    ensures !IoReady(s) ==> IoReadyError(s) in {IO_ERROR_INVALID_HANDLE, IO_ERROR_INVALID_DRIVE_LAYOUT, IO_ERROR_PARTITION_NOT_SET}
    ensures !DeviceReady(s) ==> DeviceReadyError(s) in {IO_ERROR_INVALID_HANDLE, IO_ERROR_INVALID_DRIVE_LAYOUT}
                                && IoReadyError(s) == DeviceReadyError(s)
    ensures DeviceReady(s) ==> DeviceReadyError(s) == s.lastError
    ensures DeviceReady(s) && !IoReady(s) ==> IoReadyError(s) == IO_ERROR_PARTITION_NOT_SET
  {
  }

  /**
   * A new object has no open handle, no device type, no partition and no
   * cached block, so it is not ready for I/O and its cache is not valid.
   */
  lemma InitialStateNotReady(devName: string, devId: u32, store: seq<u8>, lastWin32Error: u32, heapBytes: nat)
    ensures var s := InitialState(devName, devId, store, lastWin32Error, heapBytes);
      && !DeviceReady(s) && !IoReady(s)
      && IoReadyError(s) == IO_ERROR_INVALID_HANDLE
      && CurrentPartitionSize(s) == 0 && CurrentPartitionNumber(s) == INVALID_INDEX
      && DevicePartitionType(s) == PARTITION_STYLE_RAW
      && !CacheValid(s) && CacheRemaining(s) == 0
  {
  }

  /** Reads and seeks that keep the geometry keep the readiness and the partition's size. */
  lemma KeepsGeometryReady(s: DeviceState, t: DeviceState)
    requires KeepsGeometry(s, t)
    ensures DeviceReady(s) == DeviceReady(t) && IoReady(s) == IoReady(t)
    ensures CurrentPartitionSize(s) == CurrentPartitionSize(t)
  {
  }

  // ------------------------------------------------------- the header's getters

  /** GetCurrentPartitionSize: the selected partition's length once IO is ready, else 0. */
  function CurrentPartitionSize(s: DeviceState): u64
  {
    if IoReady(s) && s.currentPartition.Some? then s.currentPartition.value.partitionLength else 0
  }

  /** GetCurrentPartitionNumber: the selected partition's number once IO is ready, else INVALID_INDEX. */
  function CurrentPartitionNumber(s: DeviceState): u32
  {
    if IoReady(s) && s.currentPartition.Some? then s.currentPartition.value.partitionNumber else INVALID_INDEX
  }

  /** GetDevicePartitionType: the layout's style, or RAW without a layout. */
  function DevicePartitionType(s: DeviceState): PartitionStyle
  {
    if s.driveLayout.None? then PARTITION_STYLE_RAW else s.driveLayout.value.partitionStyle
  }

  /** With no partition selected there is no size and no number; with no layout the style reads RAW. */
  lemma NoPartitionGetters(s: DeviceState)
    requires s.currentPartition.None?
    ensures CurrentPartitionSize(s) == 0 && CurrentPartitionNumber(s) == INVALID_INDEX
    ensures s.driveLayout.None? ==> DevicePartitionType(s) == PARTITION_STYLE_RAW
  {
  }

  /** GetPartitionRemainingReadBytes: partition size − position (a ULONGLONG difference) when IO is ready and the size is nonzero, else 0. */
  function PartitionRemainingReadBytes(s: DeviceState): (r: u64)
    ensures IoReady(s) && CurrentPartitionSize(s) != 0 && s.ioCurPos <= CurrentPartitionSize(s) ==>
              r as int == CurrentPartitionSize(s) as int - s.ioCurPos as int
    ensures !IoReady(s) || CurrentPartitionSize(s) == 0 ==> r == 0
  {
    if IoReady(s) && CurrentPartitionSize(s) != 0 then Sub64(CurrentPartitionSize(s), s.ioCurPos) else 0
  }

  /** GetCacheRemaining: CacheSize − CacheCurOffset when there is a cache size, else 0. */
  function CacheRemaining(s: DeviceState): (r: u64)
    ensures s.cacheSize > 0 && s.cacheCurOffset <= s.cacheSize as u64 ==> r as int == s.cacheSize as int - s.cacheCurOffset as int
    ensures s.cacheSize == 0 ==> r == 0
  {
    if s.cacheSize > 0 then Sub64(s.cacheSize as u64, s.cacheCurOffset) else 0
  }

  /** GetCacheOffset: how far the position lies past the first cached block, as a ULONGLONG. */
  function CacheOffset(s: DeviceState): (r: u64)
    ensures Mul64(s.cacheCurBlock, s.blockSize as u64) <= s.ioCurPos ==>
              r as int == s.ioCurPos as int - Mul64(s.cacheCurBlock, s.blockSize as u64) as int
  {
    Sub64(s.ioCurPos, Mul64(s.cacheCurBlock, s.blockSize as u64))
  }

  /** The end (exclusive block) of the cached window, a ULONGLONG sum. */
  function CacheEndBlock(s: DeviceState): u64
  {
    Add64(s.cacheCurBlock, s.cacheBlockCount as u64)
  }

  /**
   * IsCacheValid: a cache is allocated and names a block, the next I/O
   * block follows the cached ones, the cache offset is inside the cache,
   * the position's block is inside the window, and the window lies inside
   * the device.
   */
  predicate CacheValid(s: DeviceState)
    requires s.blockSize > 0
  {
    && s.hasCache
    && s.cacheCurBlock != INVALID_BLOCK
    && CacheEndBlock(s) == s.ioCurBlock
    && s.cacheCurOffset < s.cacheSize as u64
    && s.ioCurPos / s.blockSize as u64 >= s.cacheCurBlock
    && s.ioCurPos / s.blockSize as u64 < CacheEndBlock(s)
    && Add64(Mul64(s.cacheCurBlock, s.blockSize as u64), s.cacheCurOffset) < s.ioSize
    && CacheEndBlock(s) <= s.ioBlockCount
  }

  /** A valid cache has an offset inside it and a position inside its window, so GetCacheRemaining does not wrap. */
  lemma CacheValidBounds(s: DeviceState)
    requires s.blockSize > 0 && CacheValid(s)
    ensures 0 < CacheRemaining(s) as int == s.cacheSize as int - s.cacheCurOffset as int
    ensures s.cacheCurBlock as int <= s.ioCurPos as int / s.blockSize as int < s.cacheCurBlock as int + s.cacheBlockCount as int
  {
  }

  // ------------------------------------------------------------------- names

  /** towlower on the ASCII letters, which is what _wcsnicmp folds in the C locale. */
  function LowerChar(c: char): char
  {
    if 'A' <= c <= 'Z' then (c as int + 32) as char else c
  }

  /** `_wcsnicmp(name, PHYSICAL_DEVICE_STRING, wcslen(PHYSICAL_DEVICE_STRING)) == 0`. */
  predicate HasPhysicalPrefix(name: string)
  {
    |name| >= |PHYSICAL_DEVICE_STRING|
    && forall i :: 0 <= i < |PHYSICAL_DEVICE_STRING| ==> LowerChar(name[i]) == LowerChar(PHYSICAL_DEVICE_STRING[i])
  }

  /** The device type SetDeviceName gives a non-empty name. */
  function ClassifyName(name: string): (t: IoDeviceType)
    ensures t == RAW_DEVICE_TYPE <==> HasPhysicalPrefix(name)
    ensures t == RAW_DEVICE_TYPE || t == PLAIN_FILE_DEVICE_TYPE
  {
    if HasPhysicalPrefix(name) then RAW_DEVICE_TYPE else PLAIN_FILE_DEVICE_TYPE
  }

  function DigitChar(d: nat): char
    requires d < 10
  {
    ('0' as int + d) as char
  }

  /** _itow in base 10: the decimal digits, without leading zeros. */
  function DecimalString(n: nat): (s: string)
    ensures 0 < |s|
    ensures forall i :: 0 <= i < |s| ==> '0' <= s[i] <= '9'
    ensures |s| > 1 ==> s[0] != '0'
  {
    if n < 10 then [DigitChar(n)] else DecimalString(n / 10) + [DigitChar(n % 10)]
  }

  /** The value of a string of decimal digits. */
  function ParseDecimal(s: string): nat
    requires forall i :: 0 <= i < |s| ==> '0' <= s[i] <= '9'
  {
    if |s| == 0 then 0 else ParseDecimal(s[..|s| - 1]) * 10 + (s[|s| - 1] as int - '0' as int)
  }

  /** Reading the digits back gives the number. */
  lemma {:induction false} ParseDecimalString(n: nat)
    ensures ParseDecimal(DecimalString(n)) == n
  {
    if n >= 10 {
      var s := DecimalString(n);
      assert s[..|s| - 1] == DecimalString(n / 10);
      ParseDecimalString(n / 10);
    }
  }

  /** A device ID below MAX_DEV_ID_VALUE takes at most three digits, as MAX_DEV_ID_STRING_SIZE allows. */
  lemma {:induction false} DecimalLength(n: nat)
    ensures n < 10 ==> |DecimalString(n)| == 1
    ensures n < 100 ==> |DecimalString(n)| <= 2
    ensures n < 1000 ==> |DecimalString(n)| <= 3
  {
    if n >= 10 {
      DecimalLength(n / 10);
    }
  }

  /** The name SetDeviceID gives a device ID: the physical-drive prefix followed by the ID in decimal. */
  function PhysicalDriveName(devId: nat): (name: string)
    ensures |name| > |PHYSICAL_DEVICE_STRING|
    ensures name[..|PHYSICAL_DEVICE_STRING|] == PHYSICAL_DEVICE_STRING
    ensures name[|PHYSICAL_DEVICE_STRING|..] == DecimalString(devId)
  {
    PHYSICAL_DEVICE_STRING + DecimalString(devId)
  }

  /** The digits after the prefix read back as the device ID. */
  lemma PhysicalDriveNameId(devId: nat)
    ensures ParseDecimal(PhysicalDriveName(devId)[|PHYSICAL_DEVICE_STRING|..]) == devId
  {
    ParseDecimalString(devId);
  }

  /** A name made from a device ID is classified as a disk, so naming by ID and by that name agree. */
  lemma PhysicalDriveNameIsRaw(devId: nat)
    ensures ClassifyName(PhysicalDriveName(devId)) == RAW_DEVICE_TYPE
  {
    var name := PhysicalDriveName(devId);
    assert forall i :: 0 <= i < |PHYSICAL_DEVICE_STRING| ==> name[i] == PHYSICAL_DEVICE_STRING[i];
  }

  /** The prefix is matched without regard to case; a name that does not start with it is a plain file. */
  lemma ClassifyExamples()
    ensures ClassifyName("\\\\.\\PHYSICALDRIVE2") == RAW_DEVICE_TYPE
    ensures ClassifyName("\\\\.\\physicaldrive") == RAW_DEVICE_TYPE
    ensures ClassifyName("C:\\dump\\rawdump.bin") == PLAIN_FILE_DEVICE_TYPE
    ensures ClassifyName("\\\\.\\Physical") == PLAIN_FILE_DEVICE_TYPE
  {
    var p := PHYSICAL_DEVICE_STRING;
    var a := "\\\\.\\PHYSICALDRIVE2";
    assert forall i :: 0 <= i < |p| ==> LowerChar(a[i]) == LowerChar(p[i]);
    var b := "\\\\.\\physicaldrive";
    assert forall i :: 0 <= i < |p| ==> LowerChar(b[i]) == LowerChar(p[i]);
    var c := "C:\\dump\\rawdump.bin";
    assert LowerChar(c[0]) != LowerChar(p[0]);
  }

  // -------------------------------------------------------------- cache size

  /** The cache block count AllocateCache starts from: the request (0 meaning the default), cut to a partition that fits in a ULONG. */
  function RequestedCacheBlocks(blockSizeMult: u32, partitionBlocks: u64): (c: u32)
    ensures c <= (if blockSizeMult == 0 then DEFAULT_CACHE_BLOCK_COUNT else blockSizeMult)
    ensures partitionBlocks < U32_LIMIT as u64 ==> c as u64 <= partitionBlocks
    ensures partitionBlocks >= U32_LIMIT as u64 ==> c == (if blockSizeMult == 0 then DEFAULT_CACHE_BLOCK_COUNT else blockSizeMult)
  {
    var c := if blockSizeMult == 0 then DEFAULT_CACHE_BLOCK_COUNT else blockSizeMult;
    if partitionBlocks < U32_LIMIT as u64 && c as u64 > partitionBlocks then partitionBlocks as u32 else c
  }

  /**
   * The block count AllocateCache multiplies BlockSize by, given the
   * product BlockSize × count as the comparison sees it: MAX_ULONG /
   * BlockSize when that product exceeds MAX_ULONG, else the count.
   */
  function CacheBlocksFor(product: int, blockSize: u32, count: u32): u32
    requires blockSize > 0
  {
    if product > MAX_ULONG as int then MAX_ULONG / blockSize else count
  }

  /**
   * The block count a cache of at most MAX_ULONG bytes can hold: the
   * comparison made on the true product.
   */
  function UlongCacheBlocks(blockSize: u32, count: u32): (c: u32)
    requires blockSize > 0
    ensures c <= count
    ensures blockSize as int * c as int <= MAX_ULONG as int
    ensures blockSize as int * count as int <= MAX_ULONG as int ==> c == count
    ensures blockSize as int * count as int > MAX_ULONG as int ==> blockSize as int * (c as int + 1) > MAX_ULONG as int
  {
    var q := MAX_ULONG / blockSize;
    assert MAX_ULONG as int == q as int * blockSize as int + (MAX_ULONG % blockSize) as int;
    CacheBlocksFor(blockSize as int * count as int, blockSize, count)
  }

  /**
   * m_CacheSize as AllocateCache writes it: the product BlockSize ×
   * CacheBlockCount is formed in 32 bits before it is widened and compared
   * with MAX_ULONG, so the stored size is BlockSize × count modulo 2^32.
   */
  function CacheSizeAsWritten(blockSize: u32, count: u32): (r: u32)
    requires blockSize > 0
  {
    Mul32(blockSize, CacheBlocksFor(Mul32(blockSize, count) as int, blockSize, count))
  }

  /** The guard cannot fire, and a 1 MiB block size with the default count gives a cache of 0 bytes for 0x2000 blocks. */
  lemma CacheSizeAsWrittenWraps()
    ensures forall bs: u32, c: u32 :: bs > 0 ==> CacheSizeAsWritten(bs, c) == Mul32(bs, c)
    ensures CacheSizeAsWritten(0x10_0000, DEFAULT_CACHE_BLOCK_COUNT) == 0
  {
    assert 0x10_0000 * 0x2000 == 2 * U32_LIMIT;
  }

  /** With the comparison made on the true product, the cache is exactly its blocks; the 1 MiB case keeps 0xFFF blocks. */
  lemma UlongCacheFits(blockSize: u32, count: u32)
    requires blockSize > 0
    ensures blockSize as int * UlongCacheBlocks(blockSize, count) as int == Mul32(blockSize, UlongCacheBlocks(blockSize, count)) as int
    ensures UlongCacheBlocks(0x10_0000, DEFAULT_CACHE_BLOCK_COUNT) == 0xFFF
  {
  }

  // ------------------------------------------------------------------- SafeIO

  /** The largest single ReadFile/WriteFile: MAX_DWORD, or for blocks the whole blocks that fit in MAX_DWORD. */
  function MaxIoSize(ioBlockSize: u32): (m: u32)
    ensures m > 0
    ensures ioBlockSize != 0 ==> m % ioBlockSize == 0 && MAX_DWORD as int - ioBlockSize as int < m as int <= MAX_DWORD as int
    ensures ioBlockSize == 0 ==> m == MAX_DWORD
  {
    if ioBlockSize == 0 then MAX_DWORD
    else
      var q: int := MAX_DWORD as int / ioBlockSize as int;
      var r: int := MAX_DWORD as int % ioBlockSize as int;
      var m: int := q * ioBlockSize as int;
      assert m == MAX_DWORD as int - r;
      MultipleMod(q, ioBlockSize as int);
      m as u32
  }

  lemma MultipleMod(q: nat, b: int)
    requires b > 0
    ensures (q * b) % b == 0
  {
    var n := q * b;
    var d := q - n / b;
    assert d * b == n % b by {
      assert n == (n / b) * b + n % b;
      assert d * b == q * b - (n / b) * b;
    }
    MulSign(d, b);
  }

  lemma MulSign(d: int, b: int)
    requires b > 0
    ensures d >= 1 ==> d * b >= b
    ensures d <= -1 ==> d * b <= -b
  {
  }

  /**
   * When AllocateCache hands back a cache: the device has blocks, I/O is
   * ready, and the heap holds at least one block or none was asked for.
   */
  predicate CacheAllocates(s: DeviceState, blockSizeMult: u32)
    requires s.blockSize > 0
  {
    && s.ioBlockCount >= 1 && IoReady(s)
    && (UlongCacheBlocks(s.blockSize, RequestedCacheBlocks(blockSizeMult, s.currentPartitionBlockCount)) == 0
        || s.blockSize as int <= s.heapLimit)
  }

  /** The bytes of the store from a file pointer to its end. */
  function Available(storeSize: nat, pos: nat): nat
  {
    if pos < storeSize then storeSize - pos else 0
  }

  /** HRESULT_FROM_WIN32: 0 is S_OK, a small code gets the Win32 facility, anything else passes through. */
  function HResultFromWin32(e: u32): (r: HResult)
    ensures Succeeded(r) <==> e == 0
  {
    if e == 0 then S_OK
    else if e >= 0x8000_0000 then HrOther(e)
    else HrOther(0x8007_0000 + e % 0x1_0000)
  }

  /** SafeIO's parameter check. */
  predicate SafeIoArgsOk(handleValid: bool, hasBuffer: bool, bufferSize: u64, ioBlockSize: u32, ioFlag: IoType)
  {
    handleValid && hasBuffer && (ioBlockSize == 0 || bufferSize % ioBlockSize as u64 == 0)
    && (ioFlag == IO_TYPE_READ || ioFlag == IO_TYPE_WRITE)
  }

  /** A write of `data` over the store at `pos`. */
  function Overwrite(store: seq<u8>, pos: nat, data: seq<u8>): (r: seq<u8>)
    requires |data| == 0 || pos + |data| <= |store|
    ensures |r| == |store|
    ensures |data| > 0 ==> r[pos..pos + |data|] == data && r[..pos] == store[..pos]
                           && r[pos + |data|..] == store[pos + |data|..]
    ensures |data| == 0 ==> r == store
  {
    if |data| == 0 then store else store[..pos] + data + store[pos + |data|..]
  }

  /**
   * The buffer after SafeIO's read loop as written: every ReadFile is
   * handed `buffer` rather than the advanced `pBuffer`, so each chunk lands
   * at the start of the buffer.
   */
  function SafeReadAsWritten(store: seq<u8>, pos: nat, buf: seq<u8>, remaining: nat, maxIo: nat): (r: seq<u8>)
    requires 0 < maxIo && remaining <= |buf|
    ensures |r| == |buf|
    decreases remaining
  {
    var k := Min(Min(remaining, maxIo), Available(|store|, pos));
    if k == 0 then buf
    else
      var buf' := store[pos..pos + k] + buf[k..];
      if remaining - k == 0 then buf' else SafeReadAsWritten(store, pos + k, buf', remaining - k, maxIo)
  }

  /**
   * A read of MAX_DWORD + 1 bytes from a file (IoBlockSize 0) takes two
   * ReadFile calls; as written the second one's single byte overwrites the
   * first byte of the buffer, which therefore holds byte MAX_DWORD of the
   * file instead of byte 0.
   */
  lemma SafeReadAsWrittenOverwritesStart(store: seq<u8>, buf: seq<u8>)
    requires |buf| == MAX_DWORD as int + 1 && |store| >= |buf|
    ensures SafeReadAsWritten(store, 0, buf, |buf|, MaxIoSize(0))[0] == store[MAX_DWORD]
    ensures store[0] != store[MAX_DWORD] ==> SafeReadAsWritten(store, 0, buf, |buf|, MaxIoSize(0))[0] != store[0]
  {
    var m := MAX_DWORD as int;
    var buf1 := store[0..m] + buf[m..];
    assert SafeReadAsWritten(store, 0, buf, |buf|, m) == SafeReadAsWritten(store, m, buf1, 1, m);
    var buf2 := store[m..m + 1] + buf1[1..];
    assert SafeReadAsWritten(store, m, buf1, 1, m) == buf2;
  }

  // ------------------------------------------------------------------ seeking

  /**
   * The file pointer SetFileOffset asks SetFilePointerEx for: relative to
   * the end of the file (of `fileSize` bytes) when newPos reaches IOSize,
   * relative to the current pointer when moving forward, else from the
   * beginning. The distances are ULONGLONG differences held in a
   * LARGE_INTEGER.
   */
  function SeekTarget(newPos: u64, curr: u64, ioSize: u64, fileSize: nat): int
  {
    if newPos >= ioSize then fileSize + ToSigned64(Sub64(newPos, ioSize))
    else if newPos > curr then curr + ToSigned64(Sub64(newPos, curr))
    else ToSigned64(newPos)
  }

  /** A position a LARGE_INTEGER can hold is reached exactly, unless it lies past IOSize in a file whose size differs from IOSize. */
  lemma SeekTargetExact(newPos: u64, curr: u64, ioSize: u64, fileSize: nat)
    requires newPos < LARGE_INTEGER_LIMIT && curr < LARGE_INTEGER_LIMIT
    ensures newPos < ioSize || fileSize == ioSize as int ==> SeekTarget(newPos, curr, ioSize, fileSize) == newPos as int
    ensures newPos >= ioSize ==> SeekTarget(newPos, curr, ioSize, fileSize) == fileSize + newPos - ioSize
  {
  }

  /**
   * SetFileOffset on a state: it needs the current pointer (GetIoPos),
   * does nothing when already there, and otherwise moves the pointer and
   * IOCurPos to the target, noting EOF at or past IOSize. A target below 0
   * or beyond a LARGE_INTEGER is refused.
   */
  function FileSeek(s: DeviceState, newPos: u64): (r: (HResult, DeviceState))
    requires s.osPos < LARGE_INTEGER_LIMIT
    ensures KeepsGeometry(s, r.1) && r.1.cacheCurOffset == s.cacheCurOffset && r.1.ioCurBlock == s.ioCurBlock
    ensures Succeeded(r.0) <==> r.0 == S_OK
    ensures Succeeded(r.0) ==> r.1.osPos == newPos as int || (newPos as int != s.osPos && r.1.osPos == SeekTarget(newPos, s.osPos, s.ioSize, |s.disk|))
    ensures !Succeeded(r.0) ==> r.1 == s.(lastError := IO_ERROR_SET_POSITION_FAILED)
  {
    if !DeviceReady(s) then (E_FAIL, s.(lastError := IO_ERROR_SET_POSITION_FAILED))
    else if newPos as int == s.osPos then (S_OK, s.(lastError := IO_OK))
    else
      var t := SeekTarget(newPos, s.osPos, s.ioSize, |s.disk|);
      if 0 <= t < LARGE_INTEGER_LIMIT then
        (S_OK, s.(ioCurPos := t, osPos := t, lastError := if t >= s.ioSize as int then IO_ERROR_EOF else IO_OK))
      else (E_FAIL, s.(lastError := IO_ERROR_SET_POSITION_FAILED))
  }

  /** SetFileOffset overwrites lastError on every path, so what it held before does not matter. */
  lemma FileSeekIgnoresLastError(s: DeviceState, e: IoError, newPos: u64)
    requires s.osPos < LARGE_INTEGER_LIMIT
    ensures FileSeek(s.(lastError := e), newPos) == FileSeek(s, newPos)
  {
  }

  /**
   * On a ready file whose size is IOSize, a seek to any LARGE_INTEGER
   * position succeeds and leaves the pointer there, with EOF exactly when
   * the position is at or past the end; IOCurPos follows unless the
   * pointer was already in place.
   */
  lemma FileSeekReaches(s: DeviceState, newPos: u64)
    requires s.osPos < LARGE_INTEGER_LIMIT && DeviceReady(s)
    requires newPos < LARGE_INTEGER_LIMIT && |s.disk| == s.ioSize as int
    ensures FileSeek(s, newPos).0 == S_OK && FileSeek(s, newPos).1.osPos == newPos as int
    ensures newPos as int != s.osPos ==> FileSeek(s, newPos).1.ioCurPos == newPos
                                         && (FileSeek(s, newPos).1.lastError == IO_ERROR_EOF <==> newPos >= s.ioSize)
    ensures newPos as int == s.osPos ==> FileSeek(s, newPos).1.ioCurPos == s.ioCurPos
  {
    SeekTargetExact(newPos, s.osPos, s.ioSize, |s.disk|);
  }

  /** The partition's StartingOffset and PartitionLength, or 0 without a partition. */
  function PartitionStart(s: DeviceState): u64
  {
    if s.currentPartition.Some? then s.currentPartition.value.startingOffset else 0
  }

  function PartitionLength(s: DeviceState): u64
  {
    if s.currentPartition.Some? then s.currentPartition.value.partitionLength else 0
  }

  /**
   * The device offset MoveToDeviceBlock seeks to for a block inside the
   * partition: the block's offset from the partition start, except that a
   * block among the last CacheBlockCount ones is pulled back to
   * PartitionLength − CacheSize so that a cache-sized read ends at the
   * partition's end. The block offset is ULONGLONG arithmetic held in a
   * LARGE_INTEGER, the clamp signed LONGLONG arithmetic.
   */
  function MoveTarget(s: DeviceState, block: u64): int
  {
    if block > Sub64(s.currentPartitionBlockCount, s.cacheBlockCount as u64) then
      PartitionStart(s) as int + PartitionLength(s) as int - s.cacheSize as int
    else ToSigned64(Add64(PartitionStart(s), Mul64(block, s.blockSize as u64)))
  }

  /** A seek target is a LARGE_INTEGER below the limit when the partition ends below it. */
  lemma MoveTargetBelowLimit(s: DeviceState, block: u64)
    requires PartitionStart(s) as int + PartitionLength(s) as int < LARGE_INTEGER_LIMIT
    ensures MoveTarget(s, block) < LARGE_INTEGER_LIMIT
  {
  }

  lemma MulMono(a: nat, b: nat, c: nat)
    requires a <= b
    ensures a * c <= b * c
  {
  }

  /**
   * On a partition of whole blocks with a cache of whole blocks no larger
   * than it, the seek target of any block inside the partition starts in
   * the partition and leaves room for a full cache read before its end;
   * a clamped block starts exactly CacheSize before the end.
   */
  lemma MoveTargetKeepsCacheInPartition(s: DeviceState, block: u64)
    requires s.currentPartition.Some?
    requires PartitionStart(s) as int + PartitionLength(s) as int < LARGE_INTEGER_LIMIT
    requires PartitionLength(s) as int == s.currentPartitionBlockCount as int * s.blockSize as int
    requires s.cacheSize as int == s.cacheBlockCount as int * s.blockSize as int
    requires s.cacheBlockCount as int <= s.currentPartitionBlockCount as int
    requires block < s.currentPartitionBlockCount
    ensures PartitionStart(s) as int <= MoveTarget(s, block)
    ensures MoveTarget(s, block) + s.cacheSize as int <= PartitionStart(s) as int + PartitionLength(s) as int
    ensures block > s.currentPartitionBlockCount - s.cacheBlockCount as u64 ==>
              MoveTarget(s, block) + s.cacheSize as int == PartitionStart(s) as int + PartitionLength(s) as int
  {
    var count, cbc, bs := s.currentPartitionBlockCount as int, s.cacheBlockCount as int, s.blockSize as int;
    MulMono(cbc, count, bs);
    if block as int <= count - cbc {
      MulMono(block as int + cbc, count, bs);
      assert (block as int + cbc) * bs == block as int * bs + cbc * bs;
      MulMono(block as int, count, bs);
    }
  }

  // ------------------------------------------------------------- block reads

  /** bs × (n / bs): the whole blocks of n bytes. */
  function WholeBlocks(n: u64, bs: u32): (r: u64)
    requires bs > 0
    ensures r <= n && n - r < bs as int
  {
    var q := n / bs as u64;
    assert n as int == q as int * bs as int + (n % bs as u64) as int;
    bs as u64 * q
  }

  /**
   * The size ReadBlocksFromDevice passes to SafeIO: the request, cut to
   * the blocks left between IOCurBlock and the partition's block count (a
   * ULONGLONG product).
   */
  function BlockReadSize(blockSize: u32, partitionBlockCount: u64, ioCurBlock: u64, bufferSize: u64): (r: u64)
    ensures r <= bufferSize
    ensures ioCurBlock <= partitionBlockCount
            && blockSize as int * (partitionBlockCount as int - ioCurBlock as int) < U64_LIMIT ==>
              r as int <= blockSize as int * (partitionBlockCount as int - ioCurBlock as int)
              && (r < bufferSize ==> r as int == blockSize as int * (partitionBlockCount as int - ioCurBlock as int))
  {
    var left := Mul64(blockSize as u64, Sub64(partitionBlockCount, ioCurBlock));
    if bufferSize > left then left else bufferSize
  }

  /**
   * What a successful ReadFromBlockDevice promises: it started inside the
   * partition, read the request cut to the partition's end, advanced
   * IOCurPos by that much, and reports READ_PARTIAL exactly when that is
   * less than was asked for.
   */
  predicate BlockReadDone(s: DeviceState, bufferSize: u64, bytesRead: u64, t: DeviceState)
  {
    && s.ioCurPos < PartitionLength(s)
    && bytesRead as int == Min(bufferSize as int, PartitionLength(s) as int - s.ioCurPos as int)
    && t.ioCurPos as int == s.ioCurPos as int + bytesRead as int
    && t.lastError == (if bytesRead == bufferSize then IO_OK else IO_ERROR_READ_PARTIAL)
  }

  /**
   * What a ReadFromFile whose SafeIO succeeded leaves: the bytes the file
   * still had, up to the request, read from the file pointer, which and
   * IOCurPos (a ULONGLONG sum) advance by them; none is EOF, fewer than
   * asked for READ_PARTIAL.
   */
  predicate FileReadDone(s: DeviceState, bufferSize: u64, bytesRead: u64, t: DeviceState)
  {
    && bytesRead as int == Min(bufferSize as int, Available(|s.disk|, s.osPos))
    && t.osPos == s.osPos + bytesRead as int
    && t.ioCurPos == Add64(s.ioCurPos, bytesRead)
    && t.lastError == (if bytesRead == 0 then IO_ERROR_EOF
                       else if bytesRead == bufferSize then IO_OK else IO_ERROR_READ_PARTIAL)
  }

  /**
   * A file read reports EOF exactly when the pointer was at or past the
   * file's end, and a partial read leaves the pointer at the end.
   */
  lemma FileReadDoneAtEnd(s: DeviceState, bufferSize: u64, bytesRead: u64, t: DeviceState)
    requires 0 < bufferSize && FileReadDone(s, bufferSize, bytesRead, t)
    ensures t.lastError == IO_ERROR_EOF <==> s.osPos >= |s.disk|
    ensures t.lastError == IO_ERROR_READ_PARTIAL ==> t.osPos == |s.disk|
    ensures t.lastError == IO_OK <==> s.osPos + bufferSize as int <= |s.disk|
  {
  }

  /**
   * What Read leaves on a device ready for I/O, the buffer aside: a block
   * read that succeeded advances IOCurPos by what it read (all of
   * BlockReadDone where the OS reported no error code), a file read takes
   * what the file still has (FileReadDone when its SafeIO succeeded,
   * READ_FILE otherwise), any other device type is unsupported.
   */
  predicate ReadDone(s: DeviceState, bufferSize: u64, ret: HResult, bytesRead: u64, t: DeviceState)
  {
    && (IsBlockDevice(s.deviceType) ==>
          && (Succeeded(ret) ==> ret == S_OK && bytesRead <= bufferSize && t.ioCurPos as int == s.ioCurPos as int + bytesRead as int)
          && (Succeeded(ret) && t.osError != 0 ==> BlockReadDone(s, bufferSize, bytesRead, t)))
    && (s.deviceType == PLAIN_FILE_DEVICE_TYPE ==>
          var n := Min(bufferSize as int, Available(|s.disk|, s.osPos));
          && bytesRead as int == n && t.osPos == s.osPos + n
          && (n == bufferSize as int || t.osError == 0 ==> ret == S_OK && FileReadDone(s, bufferSize, bytesRead, t))
          && (n != bufferSize as int && t.osError != 0 ==> ret == HResultFromWin32(t.osError) && t.lastError == IO_ERROR_READ_FILE))
    && (!IsBlockDevice(s.deviceType) && s.deviceType != PLAIN_FILE_DEVICE_TYPE ==>
          ret == E_FAIL && bytesRead == 0 && t.lastError == IO_ERROR_UNSUPPORTED_DEVICE_TYPE)
  }

  /** A read that reaches past the partition's end returns what is left and is marked partial; one inside it is complete. */
  lemma BlockReadDonePartial(s: DeviceState, bufferSize: u64, bytesRead: u64, t: DeviceState)
    requires BlockReadDone(s, bufferSize, bytesRead, t)
    ensures s.ioCurPos as int + bufferSize as int > PartitionLength(s) as int <==> t.lastError == IO_ERROR_READ_PARTIAL
    ensures t.lastError == IO_ERROR_READ_PARTIAL ==> t.ioCurPos == PartitionLength(s)
  {
  }

  /**
   * The bytes phase 3 of ReadFromBlockDevice copies: the rest of the
   * request, cut to what is left of the partition.
   */
  function Phase3Copy(s: DeviceState, bytesRemaining: u64): (r: u64)
    ensures r <= bytesRemaining && r <= PartitionRemainingReadBytes(s)
  {
    var left := PartitionRemainingReadBytes(s);
    if bytesRemaining <= left then bytesRemaining else left
  }

  /**
   * Phase 3 re-reads the cache when the valid cache it was handed holds
   * fewer bytes past CacheCurOffset than the copy needs.
   */
  predicate Phase3NeedsRefresh(s: DeviceState, bytesRemaining: u64)
  {
    CacheRemaining(s) < Phase3Copy(s, bytesRemaining)
  }

  /**
   * A copy phase 3 makes without a refresh stays inside the cache, and
   * one it makes from an offset inside the cache is refused a refresh
   * only when it fits.
   */
  lemma Phase3CopyInsideCache(s: DeviceState, bytesRemaining: u64)
    requires s.cacheCurOffset <= s.cacheSize as u64
    ensures !Phase3NeedsRefresh(s, bytesRemaining) && s.cacheSize > 0 ==>
              s.cacheCurOffset as int + Phase3Copy(s, bytesRemaining) as int <= s.cacheSize as int
    ensures s.cacheCurOffset as int + Phase3Copy(s, bytesRemaining) as int > s.cacheSize as int ==>
              Phase3NeedsRefresh(s, bytesRemaining)
  {
  }

  // ---------------------------------------------------------------- findings

  /**
   * The position SetIoPosition stores on a disk when the requested one is
   * at or past the partition's end, as written: the partition's block
   * count, a count of blocks stored as a byte position.
   */
  function EofPositionAsWritten(s: DeviceState): u64
  {
    s.currentPartitionBlockCount
  }

  /**
   * On a 64 KiB partition of 4 KiB blocks the stored "EOF" position is 16,
   * which lies inside the partition, so a following read starts at byte 16
   * instead of reporting EOF; the partition's size, which the model stores,
   * lies at its end.
   */
  lemma EofPositionAsWrittenInside()
    ensures var s := InitialState("\\\\.\\PhysicalDrive0", 0, [], 0, 0).(
               handleValid := true, deviceType := RAW_DEVICE_TYPE,
               driveLayout := Some(DriveLayout(PARTITION_STYLE_GPT, [PartitionInfo(PARTITION_STYLE_GPT, 0x10_0000, 0x1_0000, 1)])),
               currentPartition := Some(PartitionInfo(PARTITION_STYLE_GPT, 0x10_0000, 0x1_0000, 1)),
               currentPartitionBlockCount := CeilDiv(0x1_0000, DEFAULT_BLOCK_SIZE));
      && IoReady(s)
      && EofPositionAsWritten(s) == 16
      && EofPositionAsWritten(s) < CurrentPartitionSize(s)
      && PartitionRemainingReadBytes(s.(ioCurPos := EofPositionAsWritten(s))) == 0x1_0000 - 16
      && PartitionRemainingReadBytes(s.(ioCurPos := CurrentPartitionSize(s))) == 0
  {
  }

  /**
   * The cache offset phase 3 of ReadFromBlockDevice copies up to, as
   * written: it copies Phase3Copy bytes from CacheCurOffset of whatever
   * valid cache CacheRawBlocks leaves, with no refresh.
   */
  function Phase3CopyEndAsWritten(s: DeviceState, bytesRemaining: u64): int
  {
    s.cacheCurOffset as int + Phase3Copy(s, bytesRemaining) as int
  }

  /**
   * After a 16 MiB read from the start of a 256 MiB partition through a
   * 32 MiB cache, the cache is still valid at offset 16 MiB and the
   * position is block aligned. A following 32 MiB read skips phases 1 and
   * 2 and copies 32 MiB from offset 16 MiB of the cache: 16 MiB past its
   * end. The corrected phase 3 re-reads the cache there instead.
   */
  lemma Phase3CopyAsWrittenOverruns()
    ensures var s := InitialState("\\\\.\\PhysicalDrive0", 0, [], 0, 0).(
               handleValid := true, deviceType := RAW_DEVICE_TYPE,
               driveLayout := Some(DriveLayout(PARTITION_STYLE_GPT, [PartitionInfo(PARTITION_STYLE_GPT, 0, 0x1000_0000, 1)])),
               currentPartition := Some(PartitionInfo(PARTITION_STYLE_GPT, 0, 0x1000_0000, 1)),
               currentPartitionBlockCount := 0x1_0000, ioSize := 0x2000_0000, ioBlockCount := 0x2_0000,
               ioCurPos := 0x100_0000, ioCurBlock := 0x2000,
               cacheCurBlock := 0, cacheCurOffset := 0x100_0000, cacheBlockCount := 0x2000, cacheSize := 0x200_0000,
               hasCache := true);
      var request: u64 := 0x200_0000;
      && IoReady(s) && CacheValid(s) && CacheOffset(s) == s.cacheCurOffset
      && s.ioCurPos % s.blockSize as u64 == 0
      && Min(request as int, PartitionRemainingReadBytes(s) as int) <= s.cacheSize as int
      && Phase3CopyEndAsWritten(s, request) == s.cacheSize as int + 0x100_0000
      && Phase3NeedsRefresh(s, request)
  {
  }
}
