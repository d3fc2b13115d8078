// DEVICE_IO (common/lib/Device_IO.cpp): a disk partition or a plain file
// read through one object whose fields track the position, the block
// geometry and a block cache. The operating system underneath is an
// abstract byte store: `disk` holds the bytes the handle reaches, `osPos`
// its file pointer, `osError` the thread's last Win32 error and
// `heapLimit` the largest block malloc still hands out.
module DeviceIo {
  import opened Machine
  import opened Status
  import opened DeviceIoDefs

  class Device {
    var name: string
    var lastError: IoError
    var deviceType: IoDeviceType
    var id: u32
    var ndxCurrentPartition: u32
    var blockSize: u32
    var driveLayout: Option<DriveLayout>
    var currentPartition: Option<PartitionInfo>
    var currentPartitionBlockCount: u64
    var handleValid: bool
    var ioCurPos: u64
    var ioCurBlock: u64
    var ioBlockCount: u64
    var ioSize: u64
    var cacheCurBlock: u64
    var cacheCurOffset: u64
    var cacheBlockCount: u32
    var cacheSize: u32
    var cache: array?<u8>
    var disk: seq<u8>
    var osPos: nat
    var osError: u32
    var heapLimit: nat

    /** The object's fields as a value. */
    function State(): DeviceState
      reads this
    {
      DeviceState(name, lastError, deviceType, id, ndxCurrentPartition, blockSize, driveLayout, currentPartition,
                  currentPartitionBlockCount, handleValid, ioCurPos, ioCurBlock, ioBlockCount, ioSize,
                  cacheCurBlock, cacheCurOffset, cacheBlockCount, cacheSize, cache != null,
                  disk, osPos, osError, heapLimit)
    }

    /**
     * A nonzero block size, a store and file pointer a LARGE_INTEGER can
     * address, a partition that ends inside that range, and a cache of
     * CacheSize bytes.
     */
    predicate Valid()
      reads this`blockSize, this`disk, this`osPos, this`currentPartition, this`cache, this`cacheSize
    {
      && blockSize > 0
      && StoreValid()
      && (currentPartition.Some? ==>
            currentPartition.value.startingOffset as int + currentPartition.value.partitionLength as int < LARGE_INTEGER_LIMIT)
      && (cache != null ==> cache.Length == cacheSize as int)
    }

    /** A store and file pointer a LARGE_INTEGER can address. */
    predicate StoreValid()
      reads this`disk, this`osPos
    {
      |disk| < LARGE_INTEGER_LIMIT && osPos < LARGE_INTEGER_LIMIT
    }

    /** Init, for a device name and ID, over a store. */
    constructor (devName: string, devId: u32, store: seq<u8>, lastWin32Error: u32, heapBytes: nat)
      requires |store| < LARGE_INTEGER_LIMIT
      ensures Valid()
      ensures State() == InitialState(devName, devId, store, lastWin32Error, heapBytes)
    {
      name := devName;
      lastError := IO_ERROR_INVALID_HANDLE;
      deviceType := UNINITIALIZED_DEVICE_TYPE;
      id := devId;
      blockSize := DEFAULT_BLOCK_SIZE;
      driveLayout := None;
      currentPartition := None;
      ndxCurrentPartition := INVALID_INDEX;
      currentPartitionBlockCount := 0;
      handleValid := false;
      ioCurPos := 0;
      ioCurBlock := 0;
      ioBlockCount := 0;
      ioSize := 0;
      cacheCurBlock := INVALID_BLOCK;
      cacheCurOffset := 0;
      cacheBlockCount := DEFAULT_CACHE_BLOCK_COUNT;
      cacheSize := 0;
      cache := null;
      disk := store;
      osPos := 0;
      osError := lastWin32Error;
      heapLimit := heapBytes;
    }

    // ------------------------------------------------------------ geometry

    /** SetIOBlockCount: IOBlockCount becomes the number of blocks covering IOSize. */
    method SetIOBlockCount()
      requires Valid()
      modifies this`ioBlockCount
      ensures Valid()
      ensures ioBlockCount == CeilDiv(ioSize, blockSize)
    {
      ioBlockCount := ioSize / blockSize as u64;
      ioBlockCount := ioBlockCount + (if ioSize % blockSize as u64 != 0 then 1 else 0);
    }

    /**
     * SetIOGeometry: the block size is the sector size and IOSize is
     * cylinders × (tracks × sectors × bytes per sector), the bracket a
     * DWORD product and the whole a ULONGLONG one.
     */
    method SetIOGeometry(cylinders: u64, tracksPerCylinder: u32, sectorsPerTrack: u32, bytesPerSector: u32)
      requires Valid() && bytesPerSector > 0
      modifies this`blockSize, this`ioSize, this`ioBlockCount
      ensures Valid()
      ensures blockSize == bytesPerSector
      ensures ioSize == Mul64(cylinders, Mul32(Mul32(tracksPerCylinder, sectorsPerTrack), bytesPerSector) as u64)
      ensures ioBlockCount == CeilDiv(ioSize, blockSize)
    {
      blockSize := bytesPerSector;
      ioSize := Mul64(cylinders, Mul32(Mul32(tracksPerCylinder, sectorsPerTrack), bytesPerSector) as u64);
      SetIOBlockCount();
    }

    /**
     * SetPartitionGeometry: the partition's block count is its length in
     * blocks, rounded up; IOCurPos is left at the partition's length.
     */
    method SetPartitionGeometry()
      requires Valid() && currentPartition.Some?
      modifies this`ioCurPos, this`currentPartitionBlockCount
      ensures Valid()
      ensures ioCurPos == currentPartition.value.partitionLength
      ensures currentPartitionBlockCount == CeilDiv(currentPartition.value.partitionLength, blockSize)
    {
      ioCurPos := currentPartition.value.partitionLength;
      currentPartitionBlockCount := ioCurPos / blockSize as u64;
      currentPartitionBlockCount := currentPartitionBlockCount + (if ioCurPos % blockSize as u64 != 0 then 1 else 0);
    }

    // --------------------------------------------------------------- names

    /**
     * SetDeviceName: only while no handle is open. It clears the ID; an
     * empty name is refused, any other is kept and a physical-drive prefix
     * makes the device a disk, anything else a plain file.
     */
    method SetDeviceName(fName: string) returns (ret: HResult)
      modifies this`lastError, this`id, this`name, this`deviceType
      ensures handleValid ==> ret == E_FAIL && lastError == IO_ERROR_SET_NAME_ON_OPENED_DEVICE
                              && name == old(name) && id == old(id) && deviceType == old(deviceType)
      ensures !handleValid && fName == [] ==> ret == E_FAIL && lastError == IO_ERROR_INVALID_DEVICE_NAME
                                              && name == [] && id == INVALID_DEVICE_ID && deviceType == old(deviceType)
      ensures !handleValid && fName != [] ==> ret == S_OK && lastError == IO_ERROR_SET_NAME_ON_OPENED_DEVICE
                                              && name == fName && id == INVALID_DEVICE_ID && deviceType == ClassifyName(fName)
    {
      ret := E_FAIL;
      lastError := IO_ERROR_SET_NAME_ON_OPENED_DEVICE;
      if !handleValid {
        id := INVALID_DEVICE_ID;
        if fName == [] {
          name := [];
          lastError := IO_ERROR_INVALID_DEVICE_NAME;
        } else {
          name := fName;
          ret := S_OK;
          if HasPhysicalPrefix(name) {
            deviceType := RAW_DEVICE_TYPE;
          } else {
            deviceType := PLAIN_FILE_DEVICE_TYPE;
          }
        }
      }
    }

    /**
     * SetDeviceID: only while no handle is open. An ID below
     * MAX_DEV_ID_VALUE names physical drive `devId` and makes the device a
     * disk; a larger one clears the name and the ID.
     */
    method SetDeviceID(devId: u32) returns (ret: HResult)
      modifies this`lastError, this`id, this`name, this`deviceType
      ensures handleValid ==> ret == E_FAIL && lastError == IO_ERROR_SET_ID_ON_OPENED_DEVICE
                              && name == old(name) && id == old(id) && deviceType == old(deviceType)
      ensures !handleValid && devId < MAX_DEV_ID_VALUE ==>
                ret == S_OK && lastError == IO_OK && name == PhysicalDriveName(devId as nat)
                && id == devId && deviceType == RAW_DEVICE_TYPE
      ensures !handleValid && devId >= MAX_DEV_ID_VALUE ==>
                ret == E_FAIL && lastError == IO_ERROR_INVALID_DEVICE_ID && name == []
                && id == INVALID_DEVICE_ID && deviceType == old(deviceType)
    {
      ret := E_FAIL;
      lastError := IO_ERROR_SET_ID_ON_OPENED_DEVICE;
      if !handleValid {
        name := [];
        lastError := IO_ERROR_INVALID_DEVICE_ID;
        if devId < MAX_DEV_ID_VALUE {
          name := PHYSICAL_DEVICE_STRING;
          name := name + DecimalString(devId as nat);
          lastError := IO_OK;
          id := devId;
          deviceType := RAW_DEVICE_TYPE;
          ret := S_OK;
        } else {
          id := INVALID_DEVICE_ID;
        }
      }
    }

    // ----------------------------------------------------------- readiness

    /** IsDeviceReady, which records why a device is not ready. */
    method IsDeviceReady() returns (ready: bool)
      modifies this`lastError
      ensures ready == DeviceReady(old(State()))
      ensures lastError == DeviceReadyError(old(State()))
    {
      ready := false;
      if !handleValid {
        lastError := IO_ERROR_INVALID_HANDLE;
      } else if IsBlockDevice(deviceType) {
        if driveLayout.None? {
          lastError := IO_ERROR_INVALID_DRIVE_LAYOUT;
        } else {
          ready := true;
        }
      } else {
        ready := true;
      }
    }

    /** IsIoReady: a ready device, with a partition selected on a disk. */
    method IsIoReady() returns (ready: bool)
      modifies this`lastError
      ensures ready == IoReady(old(State()))
      ensures lastError == IoReadyError(old(State()))
    {
      ready := IsDeviceReady();
      if ready && IsBlockDevice(deviceType) && currentPartition.None? {
        lastError := IO_ERROR_PARTITION_NOT_SET;
        ready := false;
      }
    }

    /** GetCurrentPartitionSize, which checks IsIoReady first. */
    method GetCurrentPartitionSize() returns (size: u64)
      modifies this`lastError
      ensures size == CurrentPartitionSize(old(State()))
      ensures lastError == IoReadyError(old(State()))
    {
      var ready := IsIoReady();
      size := if ready && currentPartition.Some? then currentPartition.value.partitionLength else 0;
    }

    // --------------------------------------------------------------- cache

    /** FreeCache: no cache, no cached block, and IO_OK. */
    method FreeCache()
      requires Valid()
      modifies this`cacheCurBlock, this`cacheBlockCount, this`cacheSize, this`lastError, this`cache
      ensures Valid()
      ensures cacheCurBlock == INVALID_BLOCK && cacheBlockCount == 0 && cacheSize == 0
      ensures lastError == IO_OK && cache == null
    {
      cacheCurBlock := INVALID_BLOCK;
      cacheBlockCount := 0;
      cacheSize := 0;
      lastError := IO_OK;
      cache := null;
    }

    /**
     * AllocateCache: on a device with blocks and ready for I/O, replaces
     * the cache by the largest zeroed one, of at most the requested
     * blocks (0 meaning the default, cut to a small partition and to
     * MAX_ULONG bytes), that the heap can hold, shrinking a block at a
     * time.
     */
    method AllocateCache(blockSizeMult: u32) returns (ok: bool)
      requires Valid()
      modifies this`cacheCurBlock, this`cacheBlockCount, this`cacheSize, this`lastError, this`cache
      ensures Valid()
      ensures cache == old(cache) || cache == null || fresh(cache)
      ensures old(ioBlockCount) < 1 || !IoReady(old(State())) ==>
                !ok && cache == old(cache) && cacheCurBlock == old(cacheCurBlock)
                && cacheBlockCount == old(cacheBlockCount) && cacheSize == old(cacheSize)
      ensures ok <==> CacheAllocates(old(State()), blockSizeMult)
      ensures ok ==> cache != null && fresh(cache) && lastError == IO_OK
      ensures old(ioBlockCount) < 1 ==> lastError == IO_ERROR_DEVICE_NO_BLOCKS
      ensures old(ioBlockCount) >= 1 && !IoReady(old(State())) ==> lastError == IoReadyError(old(State()))
      ensures old(ioBlockCount) >= 1 && IoReady(old(State())) ==>
        var c0 := UlongCacheBlocks(blockSize, RequestedCacheBlocks(blockSizeMult, currentPartitionBlockCount));
        && cacheCurBlock == INVALID_BLOCK
        && (ok <==> c0 == 0 || blockSize as int <= heapLimit)
        && (ok ==> && cache != null && fresh(cache) && lastError == IO_OK
                   && cacheBlockCount <= c0 && cacheSize as int == blockSize as int * cacheBlockCount as int
                   && cacheSize as int <= heapLimit
                   && (cacheBlockCount == c0 || heapLimit < cacheSize as int + blockSize as int)
                   && forall i :: 0 <= i < cache.Length ==> cache[i] == 0)
        && (!ok ==> cache == null && cacheBlockCount == 0 && cacheSize == 0 && lastError == IO_ERROR_NO_MEMORY)
    {
      ok := false;
      if ioBlockCount < 1 {
        lastError := IO_ERROR_DEVICE_NO_BLOCKS;
        return;
      }
      var ready := IsIoReady();
      if !ready {
        return;
      }
      FreeCache();
      cacheBlockCount := RequestedCacheBlocks(blockSizeMult, currentPartitionBlockCount);
      cacheBlockCount := UlongCacheBlocks(blockSize, cacheBlockCount);
      ok := AllocateLargest();
    }

    /**
     * AllocateCache's do-while loop: malloc CacheBlockCount blocks,
     * dropping a block after each failure until one succeeds or none are
     * left. The result is zeroed.
     */
    method AllocateLargest() returns (ok: bool)
      requires Valid() && cache == null && blockSize as int * cacheBlockCount as int <= MAX_ULONG as int
      modifies this`cacheBlockCount, this`cacheSize, this`lastError, this`cache
      ensures Valid()
      ensures ok <==> old(cacheBlockCount) == 0 || blockSize as int <= heapLimit
      ensures ok ==> && cache != null && fresh(cache) && lastError == IO_OK
                     && cacheBlockCount <= old(cacheBlockCount) && cacheSize as int == blockSize as int * cacheBlockCount as int
                     && cacheSize as int <= heapLimit
                     && (cacheBlockCount == old(cacheBlockCount) || heapLimit < cacheSize as int + blockSize as int)
                     && forall i :: 0 <= i < cache.Length ==> cache[i] == 0
      ensures !ok ==> cache == null && cacheBlockCount == 0 && cacheSize == 0 && lastError == IO_ERROR_NO_MEMORY
    {
      var c0 := cacheBlockCount;
      var count, size := FitBlocks(blockSize, c0, heapLimit);
      ok := count > 0 || c0 == 0;
      if ok {
        cacheBlockCount := count;
        cacheSize := size;
        cache := new u8[size](_ => 0);
        lastError := IO_OK;
      } else {
        cacheBlockCount := 0;
        cacheSize := 0;
        lastError := IO_ERROR_NO_MEMORY;
      }
    }

    /**
     * UpdateCache: copies a buffer into a valid cache at CacheCurOffset
     * when it fits in what remains of the cache, advancing the cache
     * offset and IOCurPos by its size.
     */
    method UpdateCache(buffer: array?<u8>, at: nat, bufferSize: u64) returns (ret: HResult)
      requires Valid()
      requires buffer != null ==> at + bufferSize as int <= buffer.Length
      modifies this`lastError, this`cacheCurOffset, this`ioCurPos, cache
      ensures Valid()
      ensures buffer == null ==> ret == E_FAIL && lastError == IO_ERROR_NULL_POINTER
      ensures buffer != null && (bufferSize == 0 || bufferSize > cacheSize as u64) ==>
                ret == E_FAIL && lastError == IO_ERROR_INVALID_BUFFER_SIZE
      ensures buffer != null && 0 < bufferSize <= cacheSize as u64 && !CacheValid(old(State())) ==>
                ret == E_FAIL && lastError == IO_ERROR_CACHE_INVALID
      ensures buffer != null && 0 < bufferSize <= cacheSize as u64 && CacheValid(old(State())) && bufferSize > CacheRemaining(old(State())) ==>
                ret == E_FAIL && lastError == IO_ERROR_CACHE_WRITE_SIZE
      ensures ret != S_OK ==> ioCurPos == old(ioCurPos) && cacheCurOffset == old(cacheCurOffset)
                              && (cache != null ==> cache[..] == old(cache[..]))
      ensures buffer != null && 0 < bufferSize <= cacheSize as u64 && CacheValid(old(State())) && bufferSize <= CacheRemaining(old(State())) ==>
                && ret == S_OK && lastError == IO_OK
                && cacheCurOffset as int == old(cacheCurOffset) as int + bufferSize as int
                && ioCurPos == Add64(old(ioCurPos), bufferSize)
                && cache != null
                && cache[old(cacheCurOffset)..cacheCurOffset] == old(buffer[at..at + bufferSize as int])
                && cache[..old(cacheCurOffset)] == old(cache[..cacheCurOffset])
                && cache[cacheCurOffset..] == old(cache[cacheCurOffset as int + bufferSize as int..])
    {
      ret := E_FAIL;
      var s0 := State();
      if buffer == null {
        lastError := IO_ERROR_NULL_POINTER;
      } else if bufferSize == 0 || bufferSize > cacheSize as u64 {
        lastError := IO_ERROR_INVALID_BUFFER_SIZE;
      } else if !CacheValid(s0) {
        lastError := IO_ERROR_CACHE_INVALID;
      } else if bufferSize > CacheRemaining(s0) {
        lastError := IO_ERROR_CACHE_WRITE_SIZE;
      } else {
        CacheValidBounds(s0);
        CopyToCache(buffer, at, bufferSize as int);
        AdvanceAfterWrite(bufferSize);
        ret := S_OK;
      }
    }

    /** UpdateCache after the copy: the cache offset and IOCurPos move past the bytes written. */
    method AdvanceAfterWrite(count: u64)
      requires Valid() && CacheValid(State()) && count <= CacheRemaining(State())
      modifies this`lastError, this`cacheCurOffset, this`ioCurPos
      ensures Valid() && lastError == IO_OK
      ensures cacheCurOffset as int == old(cacheCurOffset) as int + count as int
      ensures ioCurPos == Add64(old(ioCurPos), count)
    {
      CacheValidBounds(State());
      cacheCurOffset := cacheCurOffset + count;
      ioCurPos := Add64(ioCurPos, count);
      lastError := IO_OK;
    }

    /** memcpy_s of `count` bytes from `buffer[at..]` into the cache at CacheCurOffset. */
    method CopyToCache(buffer: array<u8>, at: nat, count: nat)
      requires cache != null && cacheCurOffset as int + count <= cache.Length && at + count <= buffer.Length
      modifies cache
      ensures cache[cacheCurOffset..cacheCurOffset as int + count] == old(buffer[at..at + count])
      ensures cache[..cacheCurOffset] == old(cache[..cacheCurOffset])
      ensures cache[cacheCurOffset as int + count..] == old(cache[cacheCurOffset as int + count..])
    {
      var off := cacheCurOffset as int;
      forall i | 0 <= i < count {
        cache[off + i] := buffer[at + i];
      }
    }

    /** memcpy_s from the cache at CacheCurOffset into the caller's buffer, refused when the bytes do not all lie in the cache. */
    method CopyFromCache(buffer: array<u8>, dst: nat, count: u64) returns (ok: bool)
      requires Valid() && cache != null && buffer != cache
      requires dst + count as int <= buffer.Length
      modifies buffer
      ensures ok <==> cacheCurOffset as int + count as int <= cache.Length
      ensures ok ==> buffer[dst..dst + count as int] == cache[cacheCurOffset..cacheCurOffset as int + count as int]
      ensures ok ==> buffer[..dst] == old(buffer[..dst]) && buffer[dst + count as int..] == old(buffer[dst + count as int..])
      ensures !ok ==> buffer[..] == old(buffer[..])
    {
      ok := cacheCurOffset as int + count as int <= cache.Length;
      if ok {
        var off := cacheCurOffset as int;
        forall i | 0 <= i < count as int {
          buffer[dst + i] := cache[off + i];
        }
      }
    }

    // ------------------------------------------------------------ position

    /**
     * IsPositionValid: I/O is ready and the position lies inside the
     * partition; a position at or past its end records EOF.
     */
    method IsPositionValid(newPos: u64) returns (valid: bool)
      modifies this`lastError
      ensures valid <==> IoReady(old(State())) && newPos < CurrentPartitionSize(old(State()))
      ensures !IoReady(old(State())) ==> lastError == IoReadyError(old(State()))
      ensures IoReady(old(State())) && !valid ==> lastError == IO_ERROR_EOF
      ensures valid ==> lastError == old(lastError)
    {
      valid := true;
      var ready := IsIoReady();
      if !ready {
        valid := false;
      } else {
        var size := GetCurrentPartitionSize();
        if newPos >= size {
          lastError := IO_ERROR_EOF;
          valid := false;
        }
      }
    }

    /** GetIoPos: the handle's file pointer, once the device is ready. */
    method GetIoPos() returns (ret: HResult, curPos: u64)
      requires Valid()
      modifies this`lastError
      ensures DeviceReady(old(State())) ==> ret == S_OK && curPos as int == osPos && lastError == IO_OK
      ensures !DeviceReady(old(State())) ==> ret == E_FAIL && curPos == 0 && lastError == DeviceReadyError(old(State()))
    {
      ret := E_FAIL;
      curPos := 0;
      lastError := IO_ERROR_GET_POSITION_FAILED;
      var ready := IsDeviceReady();
      if ready {
        curPos := osPos as u64;
        lastError := IO_OK;
        ret := S_OK;
      }
    }

    /** GetPos: IOCurPos, once a disk is ready for I/O or a file is ready. */
    method GetPos() returns (ret: HResult, pos: u64)
      modifies this`lastError
      ensures IsBlockDevice(deviceType) ==>
                (ret == S_OK <==> IoReady(old(State()))) && lastError == IoReadyError(old(State()).(lastError := IO_OK))
      ensures deviceType == PLAIN_FILE_DEVICE_TYPE ==>
                (ret == S_OK <==> DeviceReady(old(State()))) && lastError == DeviceReadyError(old(State()).(lastError := IO_OK))
      ensures !IsBlockDevice(deviceType) && deviceType != PLAIN_FILE_DEVICE_TYPE ==>
                ret == E_FAIL && lastError == IO_ERROR_UNSUPPORTED_DEVICE_TYPE
      ensures ret == S_OK ==> pos == ioCurPos
      ensures ret != S_OK ==> pos == 0 && ret == E_FAIL
    {
      ret := E_FAIL;
      pos := 0;
      lastError := IO_OK;
      if IsBlockDevice(deviceType) {
        var ready := IsIoReady();
        if ready {
          pos := ioCurPos;
          ret := S_OK;
        }
      } else if deviceType == PLAIN_FILE_DEVICE_TYPE {
        var ready := IsDeviceReady();
        if ready {
          pos := ioCurPos;
          ret := S_OK;
        }
      } else {
        lastError := IO_ERROR_UNSUPPORTED_DEVICE_TYPE;
      }
    }

    /**
     * SetFileOffset: moves a plain file's pointer, and IOCurPos with it,
     * to a byte position (FileSeek).
     */
    method SetFileOffset(newPos: u64) returns (ret: HResult)
      requires Valid()
      modifies this`lastError, this`ioCurPos, this`osPos
      ensures Valid()
      ensures (ret, State()) == FileSeek(old(State()), newPos)
    {
      ret := E_FAIL;
      var hr, currPosition := GetIoPos();
      if !Succeeded(hr) {
        lastError := IO_ERROR_SET_POSITION_FAILED;
      } else {
        FileSeekIgnoresLastError(old(State()), lastError, newPos);
        ret := SeekFrom(newPos, currPosition);
      }
    }

    /** SetFileOffset once GetIoPos has reported the file pointer. */
    method SeekFrom(newPos: u64, currPosition: u64) returns (ret: HResult)
      requires Valid() && DeviceReady(State()) && currPosition as int == osPos && lastError == IO_OK
      modifies this`lastError, this`ioCurPos, this`osPos
      ensures Valid()
      ensures (ret, State()) == FileSeek(old(State()), newPos)
    {
      ret := E_FAIL;
      if newPos == currPosition {
        ret := S_OK;
      } else {
        var target := SeekTarget(newPos, currPosition, ioSize, |disk|);
        if 0 <= target < LARGE_INTEGER_LIMIT {
          osPos := target;
          ioCurPos := target as u64;
          ret := S_OK;
          if ioCurPos >= ioSize {
            lastError := IO_ERROR_EOF;
          } else {
            lastError := IO_OK;
          }
        } else {
          lastError := IO_ERROR_SET_POSITION_FAILED;
        }
      }
    }

    /**
     * SetIoPosition (and SetPos): on a disk the position must lie inside
     * the partition; a position at or past its end fails with EOF and
     * leaves IOCurPos at the partition's end. A plain file seeks its
     * handle.
     */
    method SetIoPosition(newPos: u64) returns (ret: HResult)
      requires Valid()
      modifies this`lastError, this`ioCurPos, this`osPos
      ensures Valid()
      ensures !DeviceReady(old(State())) ==>
                ret == E_FAIL && lastError == DeviceReadyError(old(State()).(lastError := IO_ERROR_INVALID_POSITION))
                && ioCurPos == old(ioCurPos) && osPos == old(osPos)
      ensures DeviceReady(old(State())) && IsBlockDevice(deviceType) ==>
                && osPos == old(osPos)
                && (Succeeded(ret) <==> newPos < CurrentPartitionSize(old(State())))
                && (newPos < CurrentPartitionSize(old(State())) ==> ret == S_OK && ioCurPos == newPos && lastError == IO_OK)
                && (IoReady(old(State())) && newPos >= CurrentPartitionSize(old(State())) ==>
                      ret == E_FAIL && lastError == IO_ERROR_EOF && ioCurPos == CurrentPartitionSize(old(State())))
                && (!IoReady(old(State())) ==> ret == E_FAIL && lastError == IO_ERROR_PARTITION_NOT_SET && ioCurPos == old(ioCurPos))
      ensures DeviceReady(old(State())) && deviceType == PLAIN_FILE_DEVICE_TYPE ==>
                (ret, State()) == FileSeek(old(State()), newPos)
      ensures DeviceReady(old(State())) && !IsBlockDevice(deviceType) && deviceType != PLAIN_FILE_DEVICE_TYPE ==>
                ret == E_FAIL && lastError == IO_ERROR_UNSUPPORTED_DEVICE_TYPE && ioCurPos == old(ioCurPos) && osPos == old(osPos)
    {
      ret := E_FAIL;
      lastError := IO_ERROR_INVALID_POSITION;
      var ready := IsDeviceReady();
      if ready {
        FileSeekIgnoresLastError(old(State()), lastError, newPos);
        ret := SetReadyPosition(newPos);
      }
    }

    /** SetIoPosition on a ready device, by its type. */
    method SetReadyPosition(newPos: u64) returns (ret: HResult)
      requires Valid() && DeviceReady(State())
      modifies this`lastError, this`ioCurPos, this`osPos
      ensures Valid()
      ensures IsBlockDevice(deviceType) ==>
                && osPos == old(osPos)
                && (Succeeded(ret) <==> newPos < CurrentPartitionSize(old(State())))
                && (newPos < CurrentPartitionSize(old(State())) ==> ret == S_OK && ioCurPos == newPos && lastError == IO_OK)
                && (IoReady(old(State())) && newPos >= CurrentPartitionSize(old(State())) ==>
                      ret == E_FAIL && lastError == IO_ERROR_EOF && ioCurPos == CurrentPartitionSize(old(State())))
                && (!IoReady(old(State())) ==> ret == E_FAIL && lastError == IO_ERROR_PARTITION_NOT_SET && ioCurPos == old(ioCurPos))
      ensures deviceType == PLAIN_FILE_DEVICE_TYPE ==> (ret, State()) == FileSeek(old(State()), newPos)
      ensures !IsBlockDevice(deviceType) && deviceType != PLAIN_FILE_DEVICE_TYPE ==>
                ret == E_FAIL && lastError == IO_ERROR_UNSUPPORTED_DEVICE_TYPE && ioCurPos == old(ioCurPos) && osPos == old(osPos)
    {
      ret := E_FAIL;
      if IsBlockDevice(deviceType) {
        ret := SetBlockPosition(newPos);
      } else if deviceType == PLAIN_FILE_DEVICE_TYPE {
        ret := SetFileOffset(newPos);
      } else {
        lastError := IO_ERROR_UNSUPPORTED_DEVICE_TYPE;
      }
    }

    /** SetIoPosition on a ready disk: IsPositionValid, then IOCurPos. */
    method SetBlockPosition(newPos: u64) returns (ret: HResult)
      requires IsBlockDevice(deviceType) && DeviceReady(State())
      modifies this`lastError, this`ioCurPos
      ensures Succeeded(ret) <==> newPos < CurrentPartitionSize(old(State()))
      ensures newPos < CurrentPartitionSize(old(State())) ==> ret == S_OK && ioCurPos == newPos && lastError == IO_OK
      ensures IoReady(old(State())) && newPos >= CurrentPartitionSize(old(State())) ==>
                ret == E_FAIL && lastError == IO_ERROR_EOF && ioCurPos == CurrentPartitionSize(old(State()))
      ensures !IoReady(old(State())) ==> ret == E_FAIL && lastError == IO_ERROR_PARTITION_NOT_SET && ioCurPos == old(ioCurPos)
    {
      ret := E_FAIL;
      ReadyChecksOnlyRecordError(State());
      var valid := IsPositionValid(newPos);
      if !valid {
        if lastError == IO_ERROR_EOF {
          ioCurPos := currentPartition.value.partitionLength;
        }
      } else {
        ioCurPos := newPos;
        lastError := IO_OK;
        ret := S_OK;
      }
    }

    /**
     * MoveToDeviceBlock: points the handle at a block of the partition
     * (MoveTarget) and sets IOCurBlock from where it lands. The block
     * count itself is EOF; anything beyond it is refused.
     */
    method MoveToDeviceBlock(newPartitionBlock: u64) returns (ret: HResult)
      requires Valid() && IsBlockDevice(deviceType)
      modifies this`lastError, this`ioCurBlock, this`ioCurPos, this`osPos
      ensures Valid()
      ensures newPartitionBlock > currentPartitionBlockCount ==>
                ret == E_FAIL && lastError == IO_ERROR_INVALID_POSITION
                && ioCurBlock == old(ioCurBlock) && ioCurPos == old(ioCurPos) && osPos == old(osPos)
      ensures newPartitionBlock == currentPartitionBlockCount ==>
                ret == E_FAIL && lastError == IO_ERROR_EOF
                && ioCurBlock == currentPartitionBlockCount && ioCurPos == ioSize && osPos == old(osPos)
      ensures newPartitionBlock < currentPartitionBlockCount && !IoReady(old(State())) ==>
                ret == E_FAIL && lastError == IoReadyError(old(State()))
                && ioCurBlock == old(ioCurBlock) && ioCurPos == old(ioCurPos) && osPos == old(osPos)
      ensures newPartitionBlock < currentPartitionBlockCount && IoReady(old(State())) ==>
                var target := MoveTarget(old(State()), newPartitionBlock);
                && ioCurPos == old(ioCurPos)
                && (target == old(osPos) ==> ret == S_OK && lastError == IO_OK && ioCurBlock == newPartitionBlock && osPos == old(osPos))
                && (target != old(osPos) && 0 <= target ==>
                      ret == S_OK && lastError == IO_OK && osPos == target
                      && ioCurBlock == Sub64(target as u64, PartitionStart(old(State()))) / blockSize as u64)
                && (target < 0 ==> ret == E_FAIL && lastError == IO_ERROR_SET_POSITION_FAILED
                                   && ioCurBlock == old(ioCurBlock) && osPos == old(osPos))
      ensures Succeeded(ret) ==> ret == S_OK && lastError == IO_OK && ioCurPos == old(ioCurPos)
    {
      ret := E_FAIL;
      if newPartitionBlock > currentPartitionBlockCount {
        lastError := IO_ERROR_INVALID_POSITION;
      } else if newPartitionBlock == currentPartitionBlockCount {
        lastError := IO_ERROR_EOF;
        ioCurBlock := currentPartitionBlockCount;
        ioCurPos := ioSize;
      } else {
        var target := MoveTarget(State(), newPartitionBlock);
        MoveTargetBelowLimit(State(), newPartitionBlock);
        var ready := IsIoReady();
        if ready {
          ret := MoveInsidePartition(newPartitionBlock, target);
        }
      }
    }

    /**
     * MoveToDeviceBlock for a block inside the partition of a device
     * ready for I/O, once the seek target is known: seek the handle there
     * unless it is there already.
     */
    method MoveInsidePartition(newPartitionBlock: u64, target: int) returns (ret: HResult)
      requires Valid() && IsBlockDevice(deviceType) && IoReady(State())
      requires target < LARGE_INTEGER_LIMIT
      modifies this`lastError, this`ioCurBlock, this`osPos
      ensures Valid()
      ensures target == old(osPos) ==> ret == S_OK && lastError == IO_OK && ioCurBlock == newPartitionBlock && osPos == old(osPos)
      ensures target != old(osPos) && 0 <= target ==>
                ret == S_OK && lastError == IO_OK && osPos == target
                && ioCurBlock == Sub64(target as u64, PartitionStart(old(State()))) / blockSize as u64
      ensures target < 0 ==> ret == E_FAIL && lastError == IO_ERROR_SET_POSITION_FAILED
                             && ioCurBlock == old(ioCurBlock) && osPos == old(osPos)
    {
      ret := E_FAIL;
      lastError := IO_OK;
      var hr, currBlockOffset := GetIoPos();
      if Succeeded(hr) {
        var start := currentPartition.value.startingOffset;
        if target != currBlockOffset as int {
          if 0 <= target {
            osPos := target;
            ioCurBlock := Sub64(target as u64, start) / blockSize as u64;
            ret := S_OK;
          } else {
            lastError := IO_ERROR_SET_POSITION_FAILED;
          }
        } else {
          ioCurBlock := newPartitionBlock;
          ret := S_OK;
        }
      }
    }

    // ------------------------------------------------------------- SafeIO

    /** ReadFile from the handle: up to `count` bytes from the file pointer, fewer at the end of the store. */
    method OsReadFile(buffer: array<u8>, dst: nat, count: nat) returns (k: nat)
      requires StoreValid() && dst + count <= buffer.Length
      modifies this`osPos, buffer
      ensures StoreValid()
      ensures k == Min(count, Available(|disk|, old(osPos)))
      ensures osPos == old(osPos) + k
      ensures k > 0 ==> buffer[dst..dst + k] == disk[old(osPos)..old(osPos) + k]
      ensures buffer[..dst] == old(buffer[..dst]) && buffer[dst + k..] == old(buffer[dst + k..])
    {
      k := Min(count, Available(|disk|, osPos));
      var p := osPos;
      forall i | 0 <= i < k {
        buffer[dst + i] := disk[p + i];
      }
      osPos := osPos + k;
    }

    /**
     * One pass of SafeIO's loop: ReadFile into, or WriteFile from,
     * `buffer[at + done..]`, extending what the earlier passes moved.
     */
    method IoChunk(buffer: array<u8>, at: nat, done: nat, count: nat, ioFlag: IoType,
                   ghost pos0: nat, ghost b0: seq<u8>, ghost d0: seq<u8>) returns (k: nat)
      requires StoreValid() && at + done + count <= buffer.Length && osPos == pos0 + done
      requires Progress(ioFlag, buffer[..], b0, disk, d0, at, done, pos0)
      modifies this`osPos, this`disk, buffer
      ensures StoreValid() && |disk| == |old(disk)|
      ensures k == Min(count, Available(|old(disk)|, old(osPos)))
      ensures osPos == old(osPos) + k
      ensures Progress(ioFlag, buffer[..], b0, disk, d0, at, done + k, pos0)
    {
      if ioFlag == IO_TYPE_READ {
        k := ReadChunk(buffer, at, done, count, pos0, b0);
      } else {
        k := WriteChunk(buffer, at, done, count, pos0, d0);
      }
    }

    /** A read pass: ReadFile into `buffer[at + done..]`. */
    method ReadChunk(buffer: array<u8>, at: nat, done: nat, count: nat, ghost pos0: nat, ghost b0: seq<u8>) returns (k: nat)
      requires StoreValid() && at + done + count <= buffer.Length && osPos == pos0 + done
      requires ReadSoFar(buffer[..], b0, disk, at, done, pos0)
      modifies this`osPos, buffer
      ensures StoreValid()
      ensures k == Min(count, Available(|disk|, old(osPos)))
      ensures osPos == old(osPos) + k
      ensures ReadSoFar(buffer[..], b0, disk, at, done + k, pos0)
    {
      ghost var b1 := buffer[..];
      k := OsReadFile(buffer, at + done, count);
      ReadJoin(b1, buffer[..], b0, disk, at, done, k, pos0);
    }

    /** A write pass: WriteFile from `buffer[at + done..]`. */
    method WriteChunk(buffer: array<u8>, at: nat, done: nat, count: nat, ghost pos0: nat, ghost d0: seq<u8>) returns (k: nat)
      requires StoreValid() && at + done + count <= buffer.Length && osPos == pos0 + done
      requires |disk| == |d0| && WroteSoFar(disk, d0, buffer[..], at, done, pos0)
      modifies this`osPos, this`disk
      ensures StoreValid() && |disk| == |old(disk)|
      ensures k == Min(count, Available(|old(disk)|, old(osPos)))
      ensures osPos == old(osPos) + k
      ensures WroteSoFar(disk, d0, buffer[..], at, done + k, pos0)
    {
      ghost var d1 := disk;
      k := OsWriteFile(buffer, at + done, count);
      assert buffer[at + done..at + done + k] == buffer[..][at + done..at + done + k];
      WriteJoin(d0, d1, disk, buffer[..], at, done, k, pos0);
    }

    /** WriteFile to the handle: up to `count` bytes over the store from the file pointer, fewer at its end. */
    method OsWriteFile(buffer: array<u8>, src: nat, count: nat) returns (k: nat)
      requires StoreValid() && src + count <= buffer.Length
      modifies this`osPos, this`disk
      ensures StoreValid()
      ensures k == Min(count, Available(|old(disk)|, old(osPos)))
      ensures osPos == old(osPos) + k
      ensures disk == Overwrite(old(disk), old(osPos), buffer[src..src + k])
    {
      k := Min(count, Available(|disk|, osPos));
      disk := Overwrite(disk, osPos, buffer[src..src + k]);
      osPos := osPos + k;
    }

    /**
     * SafeIO: reads or writes `bufferSize` bytes at `buffer[at..]` in
     * chunks of at most MaxIoSize(ioBlockSize) bytes, each chunk at the
     * position the previous ones reached, and stops at the first chunk
     * that moves nothing. bytesProcessed is the request minus what was left
     * unprocessed; the result is S_OK only when everything was moved.
     */
    method SafeIo(buffer: array?<u8>, at: nat, bufferSize: u64, ioBlockSize: u32, ioFlag: IoType)
      returns (ret: HResult, bytesProcessed: u64)
      requires Valid()
      requires buffer != null ==> at + bufferSize as int <= buffer.Length
      modifies this`osPos, this`disk, buffer
      ensures Valid()
      ensures ioFlag != IO_TYPE_WRITE ==> disk == old(disk)
      ensures ioFlag != IO_TYPE_READ && buffer != null ==> buffer[..] == old(buffer[..])
      ensures !SafeIoArgsOk(handleValid, buffer != null, bufferSize, ioBlockSize, ioFlag) ==>
                && ret == HResultFromWin32(ERROR_INVALID_PARAMETER) && bytesProcessed == 0
                && osPos == old(osPos) && disk == old(disk)
                && (buffer != null ==> buffer[..] == old(buffer[..]))
      ensures SafeIoArgsOk(handleValid, buffer != null, bufferSize, ioBlockSize, ioFlag) ==>
                var n := Min(bufferSize as int, Available(|old(disk)|, old(osPos)));
                && bytesProcessed as int == n
                && osPos == old(osPos) + n
                && ret == (if 0 < bufferSize && n == bufferSize as int then S_OK else HResultFromWin32(osError))
                && (ioFlag == IO_TYPE_READ ==>
                      && (n > 0 ==> buffer[at..at + n] == disk[old(osPos)..old(osPos) + n])
                      && buffer[..at] == old(buffer[..at]) && buffer[at + n..] == old(buffer[at + n..]))
                && (ioFlag == IO_TYPE_WRITE ==> disk == Overwrite(old(disk), old(osPos), buffer[at..at + n]))
    {
      bytesProcessed := 0;
      if !SafeIoArgsOk(handleValid, buffer != null, bufferSize, ioBlockSize, ioFlag) {
        ret := HResultFromWin32(ERROR_INVALID_PARAMETER);
        return;
      }
      ret, bytesProcessed := ProcessChunks(buffer, at, bufferSize, MaxIoSize(ioBlockSize), ioFlag, buffer[..], disk, osPos);
      ghost var n := bytesProcessed as int;
      if ioFlag == IO_TYPE_WRITE {
        WroteSoFarOverwrite(disk, old(disk), buffer[..], at, n, old(osPos));
        assert buffer[at..at + n] == buffer[..][at..at + n];
      } else {
        assert buffer[..at] == buffer[..][..at] && old(buffer[..at]) == old(buffer[..])[..at];
        assert buffer[at + n..] == buffer[..][at + n..] && old(buffer[at + n..]) == old(buffer[..])[at + n..];
        if n > 0 {
          assert buffer[at..at + n] == buffer[..][at..at + n];
        }
      }
    }

    /**
     * SafeIO's do-while loop, once the parameters passed: chunks of at
     * most maxIoSize bytes until everything moved or a pass moved nothing.
     */
    method ProcessChunks(buffer: array<u8>, at: nat, bufferSize: u64, maxIoSize: u32, ioFlag: IoType,
                         ghost b0: seq<u8>, ghost d0: seq<u8>, ghost pos0: nat)
      returns (ret: HResult, bytesProcessed: u64)
      requires StoreValid() && at + bufferSize as int <= buffer.Length && maxIoSize > 0
      requires ioFlag == IO_TYPE_READ || ioFlag == IO_TYPE_WRITE
      requires b0 == buffer[..] && d0 == disk && pos0 == osPos
      modifies this`osPos, this`disk, buffer
      ensures StoreValid() && |disk| == |d0|
      ensures var n := Min(bufferSize as int, Available(|d0|, pos0));
              && bytesProcessed as int == n
              && osPos == pos0 + n
              && ret == (if 0 < bufferSize && n == bufferSize as int then S_OK else HResultFromWin32(osError))
      ensures Progress(ioFlag, buffer[..], b0, disk, d0, at, bytesProcessed as int, pos0)
    {
      ret := S_OK;
      var bytesToProcess: u64 := bufferSize;
      var done: nat := 0;
      while true
        invariant done == bufferSize as int - bytesToProcess as int
        invariant bytesToProcess <= bufferSize && (bytesToProcess == 0 ==> bufferSize == 0)
        invariant done <= Available(|d0|, pos0) && |disk| == |d0| && osPos == pos0 + done && StoreValid()
        invariant ret == S_OK
        invariant Progress(ioFlag, buffer[..], b0, disk, d0, at, done, pos0)
        decreases bytesToProcess
      {
        var bytesThisRead: u64 := if bytesToProcess > maxIoSize as u64 then maxIoSize as u64 else bytesToProcess;
        var bProcessed := IoChunk(buffer, at, done, bytesThisRead as nat, ioFlag, pos0, b0, d0);
        ChunkStep(|d0|, pos0, bufferSize as nat, done, bytesThisRead as nat, bProcessed);
        if bProcessed == 0 {
          ret := HResultFromWin32(osError);
          break;
        }
        bytesToProcess := bytesToProcess - bProcessed as u64;
        done := done + bProcessed;
        if bytesToProcess == 0 {
          break;
        }
      }
      bytesProcessed := bufferSize - bytesToProcess;
      assert bytesProcessed as int == done;
    }

    // --------------------------------------------------------------- reads

    /**
     * ReadBlocksFromDevice: whole blocks through SafeIO at the handle's
     * pointer, cut to the blocks left before the partition's block count.
     * A SafeIO failure is READ_FILE with the thread's last error; a read
     * shorter than asked for is READ_PARTIAL. IOCurBlock is the caller's
     * to advance.
     */
    method ReadBlocksFromDevice(buffer: array?<u8>, at: nat, bufferSize: u64) returns (ret: HResult, bytesRead: u64)
      requires Valid()
      requires buffer != null ==> at + bufferSize as int <= buffer.Length
      modifies this`lastError, this`osPos, this`disk, buffer
      ensures Valid() && disk == old(disk) && bytesRead <= bufferSize
      ensures buffer == null ==> ret == E_FAIL && bytesRead == 0 && lastError == IO_ERROR_NULL_POINTER && osPos == old(osPos)
      ensures buffer != null && (bufferSize == 0 || bufferSize % blockSize as u64 != 0) ==>
                ret == E_FAIL && bytesRead == 0 && lastError == IO_ERROR_INVALID_BUFFER_SIZE
                && osPos == old(osPos) && buffer[..] == old(buffer[..])
      ensures buffer != null && 0 < bufferSize && bufferSize % blockSize as u64 == 0 && ioCurBlock >= currentPartitionBlockCount ==>
                ret == E_FAIL && bytesRead == 0 && lastError == IO_ERROR_EOF
                && osPos == old(osPos) && buffer[..] == old(buffer[..])
      ensures buffer != null && 0 < bufferSize && bufferSize % blockSize as u64 == 0 && ioCurBlock < currentPartitionBlockCount ==>
                var toRead := BlockReadSize(blockSize, currentPartitionBlockCount, ioCurBlock, bufferSize);
                var argsOk := SafeIoArgsOk(handleValid, true, toRead, blockSize, IO_TYPE_READ);
                var n := if argsOk then Min(toRead as int, Available(|disk|, old(osPos))) else 0;
                var safeOk := argsOk && ((0 < toRead && n == toRead as int) || osError == 0);
                && bytesRead as int == n && osPos == old(osPos) + n
                && (n > 0 ==> buffer[at..at + n] == disk[old(osPos)..old(osPos) + n])
                && buffer[..at] == old(buffer[..at]) && buffer[at + n..] == old(buffer[at + n..])
                && (safeOk ==> ret == S_OK && lastError == (if n == bufferSize as int then IO_OK else IO_ERROR_READ_PARTIAL))
                && (!safeOk ==> ret == HResultFromWin32(osError) && lastError == IO_ERROR_READ_FILE)
      ensures Succeeded(ret) && bytesRead == bufferSize && buffer != null && 0 < bufferSize ==>
                && lastError == IO_OK && osPos == old(osPos) + bufferSize as int <= |disk|
                && buffer[at..at + bufferSize as int] == disk[old(osPos)..osPos]
    {
      ret := E_FAIL;
      bytesRead := 0;
      if buffer == null {
        lastError := IO_ERROR_NULL_POINTER;
      } else if bufferSize == 0 || bufferSize % blockSize as u64 != 0 {
        lastError := IO_ERROR_INVALID_BUFFER_SIZE;
      } else if ioCurBlock >= currentPartitionBlockCount {
        lastError := IO_ERROR_EOF;
      } else {
        var bytesToRead := BlockReadSize(blockSize, currentPartitionBlockCount, ioCurBlock, bufferSize);
        ret, bytesRead := SafeIo(buffer, at, bytesToRead, blockSize, IO_TYPE_READ);
        if !Succeeded(ret) {
          lastError := IO_ERROR_READ_FILE;
          ret := HResultFromWin32(osError);
        } else if bytesRead != bufferSize {
          lastError := IO_ERROR_READ_PARTIAL;
        } else {
          lastError := IO_OK;
        }
      }
    }
    // --------------------------------------------------------- block reads

    /**
     * CacheRawBlocks: makes the cache hold the block IOCurPos lies in.
     * Without a cache it allocates the default one (CACHE_READ when that
     * fails); at or past the partition's end it is EOF; a valid cache only
     * has its offset recomputed, and any other cache is re-read from the
     * device at IOCurPos's block.
     */
    method CacheRawBlocks() returns (ret: HResult)
      requires Valid() && IsBlockDevice(deviceType)
      modifies this`lastError, this`cacheCurBlock, this`cacheBlockCount, this`cacheSize, this`cache,
               this`cacheCurOffset, this`ioCurBlock, this`ioCurPos, this`osPos, this`disk, cache
      ensures Valid() && disk == old(disk)
      ensures cache == old(cache) || fresh(cache)
      ensures ret == S_OK || ret == E_FAIL
      ensures old(cache) == null && !CacheAllocates(old(State()), 0) ==>
                ret == E_FAIL && lastError == IO_ERROR_CACHE_READ && ioCurPos == old(ioCurPos)
      ensures (old(cache) != null || CacheAllocates(old(State()), 0)) && old(ioCurPos) >= CurrentPartitionSize(old(State())) ==>
                ret == E_FAIL && lastError == IO_ERROR_EOF && ioCurPos == old(ioCurPos)
      ensures old(cache) != null && old(ioCurPos) < CurrentPartitionSize(old(State())) && CacheValid(old(State())) ==>
                && ret == S_OK && lastError == IO_OK && cacheCurOffset == CacheOffset(old(State()))
                && cache == old(cache) && cacheCurBlock == old(cacheCurBlock) && ioCurBlock == old(ioCurBlock)
                && ioCurPos == old(ioCurPos) && osPos == old(osPos)
      ensures ret == S_OK ==>
                && lastError == IO_OK && cache != null && IoReady(State())
                && ioCurPos == old(ioCurPos) && ioCurPos < CurrentPartitionSize(State())
                && cacheCurOffset == CacheOffset(State())
      ensures ret == S_OK && !(old(cache) != null && CacheValid(old(State()))) ==>
                && ioCurBlock == CacheEndBlock(State())
                && cacheSize as int <= osPos <= |disk| && cache[..] == disk[osPos - cacheSize as int..osPos]
    {
      if cache != null {
        ret := CacheAtPosition();
      } else {
        ret := AllocateAndCache();
      }
    }

    /** CacheRawBlocks without a cache: allocate the default one, then fill it at the position. */
    method AllocateAndCache() returns (ret: HResult)
      requires Valid() && IsBlockDevice(deviceType) && cache == null
      modifies this`lastError, this`cacheCurBlock, this`cacheBlockCount, this`cacheSize, this`cache,
               this`cacheCurOffset, this`ioCurBlock, this`ioCurPos, this`osPos, this`disk
      ensures Valid() && disk == old(disk)
      ensures cache == null || fresh(cache)
      ensures ret == S_OK || ret == E_FAIL
      ensures !CacheAllocates(old(State()), 0) ==>
                ret == E_FAIL && lastError == IO_ERROR_CACHE_READ && ioCurPos == old(ioCurPos)
      ensures CacheAllocates(old(State()), 0) && old(ioCurPos) >= CurrentPartitionSize(old(State())) ==>
                ret == E_FAIL && lastError == IO_ERROR_EOF && ioCurPos == old(ioCurPos)
      ensures ret == S_OK ==>
                && lastError == IO_OK && cache != null && IoReady(old(State()))
                && ioCurPos == old(ioCurPos) && ioCurPos < CurrentPartitionSize(old(State()))
                && cacheCurOffset == CacheOffset(State()) && ioCurBlock == CacheEndBlock(State())
                && cacheSize as int <= osPos <= |disk| && cache[..] == disk[osPos - cacheSize as int..osPos]
    {
      var present := AllocateDefaultCache();
      if !present {
        ret := E_FAIL;
      } else {
        ret := CacheAtPosition();
      }
    }

    /** CacheRawBlocks' allocation of the default cache, recording CACHE_READ when it fails. */
    method AllocateDefaultCache() returns (present: bool)
      requires Valid() && cache == null
      modifies this`lastError, this`cacheCurBlock, this`cacheBlockCount, this`cacheSize, this`cache
      ensures Valid()
      ensures cache == null || fresh(cache)
      ensures present <==> CacheAllocates(old(State()), 0)
      ensures !present ==> lastError == IO_ERROR_CACHE_READ
      ensures present ==> && cache != null && lastError == IO_OK && !CacheValid(State())
                          && IoReady(State()) && CurrentPartitionSize(State()) == CurrentPartitionSize(old(State()))
    {
      var s0 := State();
      lastError := IO_OK;
      assert CacheAllocates(State(), 0) == CacheAllocates(s0, 0);
      present := AllocateCache(0);
      if !present {
        lastError := IO_ERROR_CACHE_READ;
      } else {
        assert IoReady(State()) == IoReady(s0);
      }
    }

    /** CacheRawBlocks once a cache is present. */
    method CacheAtPosition() returns (ret: HResult)
      requires Valid() && IsBlockDevice(deviceType) && cache != null
      modifies this`lastError, this`cacheCurBlock, this`cacheCurOffset, this`ioCurBlock, this`ioCurPos,
               this`osPos, this`disk, cache
      ensures Valid() && disk == old(disk)
      ensures ret == S_OK || ret == E_FAIL
      ensures old(ioCurPos) >= CurrentPartitionSize(old(State())) ==>
                ret == E_FAIL && lastError == IO_ERROR_EOF && ioCurPos == old(ioCurPos)
      ensures old(ioCurPos) < CurrentPartitionSize(old(State())) && CacheValid(old(State())) ==>
                && ret == S_OK && lastError == IO_OK && cacheCurOffset == CacheOffset(old(State()))
                && cacheCurBlock == old(cacheCurBlock) && ioCurBlock == old(ioCurBlock)
                && ioCurPos == old(ioCurPos) && osPos == old(osPos)
      ensures ret == S_OK ==>
                && IoReady(old(State())) && ioCurPos == old(ioCurPos) && ioCurPos < CurrentPartitionSize(old(State()))
                && cacheCurOffset == CacheOffset(State())
      ensures ret == S_OK ==> lastError == IO_OK
      ensures ret == S_OK && !CacheValid(old(State())) ==>
                && ioCurBlock == CacheEndBlock(State())
                && cacheSize as int <= osPos <= |disk| && cache[..] == disk[osPos - cacheSize as int..osPos]
    {
      ret := S_OK;
      var s0 := State();
      lastError := IO_OK;
      ReadyChecksOnlyRecordError(State());
      var size := GetCurrentPartitionSize();
      if ioCurPos >= size {
        lastError := IO_ERROR_EOF;
        ret := E_FAIL;
      } else if !CacheValid(s0) {
        ret := RefreshCache();
      } else {
        cacheCurOffset := CacheOffset(s0);
      }
    }

    /**
     * CacheRawBlocks' refresh: seek to IOCurPos's block, then fill the
     * cache from there.
     */
    method RefreshCache() returns (ret: HResult)
      requires Valid() && IsBlockDevice(deviceType) && cache != null
      modifies this`lastError, this`cacheCurBlock, this`cacheCurOffset, this`ioCurBlock, this`ioCurPos,
               this`osPos, this`disk, cache
      ensures Valid() && disk == old(disk)
      ensures ret == S_OK || ret == E_FAIL
      ensures ret == S_OK ==>
                && lastError == IO_OK && ioCurPos == old(ioCurPos)
                && ioCurBlock == CacheEndBlock(State()) && cacheCurOffset == CacheOffset(State())
                && cacheSize as int <= osPos <= |disk| && cache[..] == disk[osPos - cacheSize as int..osPos]
    {
      ret := MoveToDeviceBlock(ioCurPos / blockSize as u64);
      if Succeeded(ret) {
        ret := FillCache();
      }
    }

    /**
     * Reads a whole cache at the handle's position; only a full read makes
     * the cache start at IOCurBlock, with IOCurBlock just past it and the
     * cache offset at IOCurPos.
     */
    method FillCache() returns (ret: HResult)
      requires Valid() && cache != null
      modifies this`lastError, this`cacheCurBlock, this`cacheCurOffset, this`ioCurBlock, this`osPos, this`disk, cache
      ensures Valid() && disk == old(disk)
      ensures ret == S_OK || ret == E_FAIL
      ensures ret == S_OK ==>
                && lastError == IO_OK && cacheCurBlock == old(ioCurBlock)
                && ioCurBlock == CacheEndBlock(State()) && cacheCurOffset == CacheOffset(State())
                && cacheSize as int <= osPos <= |disk| && cache[..] == disk[osPos - cacheSize as int..osPos]
    {
      var bytesRead;
      ret, bytesRead := ReadBlocksFromDevice(cache, 0, cacheSize as u64);
      if Succeeded(ret) && bytesRead == cacheSize as u64 {
        assert cacheSize as int <= osPos <= |disk| && cache[..] == disk[osPos - cacheSize as int..osPos] by {
          assert cache[..] == cache[0..cacheSize];
        }
        AdoptCache();
        ret := S_OK;
      } else {
        ret := E_FAIL;
      }
    }

    /** The cache just read starts at IOCurBlock, which moves past it; the offset follows IOCurPos. */
    method AdoptCache()
      requires Valid() && cache != null
      modifies this`cacheCurBlock, this`ioCurBlock, this`cacheCurOffset
      ensures Valid()
      ensures cacheCurBlock == old(ioCurBlock) && ioCurBlock == CacheEndBlock(State())
      ensures cacheCurOffset == CacheOffset(State())
    {
      cacheCurBlock := ioCurBlock;
      ioCurBlock := Add64(ioCurBlock, cacheBlockCount as u64);
      cacheCurOffset := CacheOffset(State());
    }

    /**
     * ReadFromBlockDevice: the three-phase read of a disk partition. The
     * request is first cut to what is left of the partition. Phase 1
     * copies from the cache up to the next block boundary when the
     * position lies inside a block; phase 2 reads the whole blocks of a
     * remainder larger than the cache straight into the buffer; phase 3
     * copies the rest from a cache read at the position. A result shorter
     * than the request is READ_PARTIAL.
     */
    method ReadFromBlockDevice(buffer: array?<u8>, at: nat, bufferSize: u64) returns (ret: HResult, bytesRead: u64)
      requires Valid() && IsBlockDevice(deviceType) && IoReady(State())
      requires buffer != null ==> at + bufferSize as int <= buffer.Length && buffer != cache
      modifies this`lastError, this`cacheCurBlock, this`cacheBlockCount, this`cacheSize, this`cache,
               this`cacheCurOffset, this`ioCurBlock, this`ioCurPos, this`osPos, this`disk, cache, buffer
      ensures Valid() && disk == old(disk)
      ensures buffer == null ==> ret == E_FAIL && bytesRead == 0 && lastError == IO_ERROR_NULL_POINTER
      ensures buffer != null && bufferSize == 0 ==> ret == E_FAIL && bytesRead == 0 && lastError == IO_ERROR_INVALID_BUFFER_SIZE
      ensures buffer != null && 0 < bufferSize && old(ioCurPos) >= PartitionLength(old(State())) ==>
                ret == E_FAIL && bytesRead == 0 && lastError == IO_ERROR_EOF
      ensures Succeeded(ret) ==> ret == S_OK && bytesRead <= bufferSize && ioCurPos as int == old(ioCurPos) as int + bytesRead as int
      ensures Succeeded(ret) && osError != 0 ==> BlockReadDone(old(State()), bufferSize, bytesRead, State())
    {
      ret := E_FAIL;
      bytesRead := 0;
      if buffer == null {
        lastError := IO_ERROR_NULL_POINTER;
      } else if bufferSize == 0 {
        lastError := IO_ERROR_INVALID_BUFFER_SIZE;
      } else if ioCurPos >= currentPartition.value.partitionLength {
        lastError := IO_ERROR_EOF;
      } else {
        var left := PartitionRemainingReadBytes(State());
        var bytesRemaining := if bufferSize <= left then bufferSize else left;
        lastError := IO_OK;
        ret, bytesRead := ReadInPhases(buffer, at, bufferSize, bytesRemaining);
      }
    }

    /**
     * ReadFromBlockDevice's three phases, for a request cut to the
     * partition's end at `total` nonzero bytes. The bytes each phase
     * delivers advance IOCurPos and the count; phase 3 takes whatever
     * phases 1 and 2 left.
     */
    method ReadInPhases(buffer: array<u8>, at: nat, bufferSize: u64, total: u64) returns (ret: HResult, bytesRead: u64)
      requires Valid() && IsBlockDevice(deviceType) && IoReady(State()) && buffer != cache && lastError == IO_OK
      requires at + bufferSize as int <= buffer.Length
      requires 0 < total <= bufferSize
      requires ioCurPos as int + total as int <= PartitionLength(State()) as int
      modifies this`lastError, this`cacheCurBlock, this`cacheBlockCount, this`cacheSize, this`cache,
               this`cacheCurOffset, this`ioCurBlock, this`ioCurPos, this`osPos, this`disk, cache, buffer
      ensures Valid() && disk == old(disk)
      ensures Succeeded(ret) ==> ret == S_OK && bytesRead <= bufferSize && ioCurPos as int == old(ioCurPos) as int + bytesRead as int
      ensures Succeeded(ret) && osError != 0 ==>
                bytesRead == total && lastError == (if total == bufferSize then IO_OK else IO_ERROR_READ_PARTIAL)
    {
      ret := S_OK;
      bytesRead := 0;
      var bytesRemaining := total;
      if ioCurPos % blockSize as u64 != 0 {
        ret, bytesRead := ReadPhase1(buffer, at, bytesRemaining);
        bytesRemaining := bytesRemaining - bytesRead;
      }
      if Succeeded(ret) {
        var rest;
        ret, rest := ReadPhases2And3(buffer, at + bytesRead as int, bytesRemaining);
        bytesRead := bytesRead + rest;
      }
      if Succeeded(ret) && bytesRead != bufferSize {
        lastError := IO_ERROR_READ_PARTIAL;
      }
    }

    /** Phases 2 and 3 of ReadFromBlockDevice, for what phase 1 left. */
    method ReadPhases2And3(buffer: array<u8>, at: nat, bytesRemaining: u64) returns (ret: HResult, bytesRead: u64)
      requires Valid() && IsBlockDevice(deviceType) && IoReady(State()) && buffer != cache
      requires osError != 0 ==> lastError == IO_OK
      requires at + bytesRemaining as int <= buffer.Length
      requires ioCurPos as int + bytesRemaining as int <= PartitionLength(State()) as int
      modifies this`lastError, this`cacheCurBlock, this`cacheBlockCount, this`cacheSize, this`cache,
               this`cacheCurOffset, this`ioCurBlock, this`ioCurPos, this`osPos, this`disk, cache, buffer
      ensures Valid() && disk == old(disk)
      ensures bytesRead <= bytesRemaining
      ensures Succeeded(ret) ==> ret == S_OK && ioCurPos as int == old(ioCurPos) as int + bytesRead as int
      ensures Succeeded(ret) && osError != 0 ==> bytesRead == bytesRemaining && lastError == IO_OK
    {
      ret := S_OK;
      bytesRead := 0;
      var left := bytesRemaining;
      if left > cacheSize as u64 {
        ret, bytesRead := ReadPhase2(buffer, at, left);
        left := left - bytesRead;
      }
      if Succeeded(ret) && left > 0 {
        var copied;
        ret, copied := ReadPhase3(buffer, at + bytesRead as int, left);
        bytesRead := bytesRead + copied;
      }
    }

    /**
     * Phase 1: copy from a cache read at the position as many of the
     * remaining bytes as the cache holds past its offset.
     */
    method ReadPhase1(buffer: array<u8>, at: nat, bytesRemaining: u64) returns (ret: HResult, copied: u64)
      requires Valid() && IsBlockDevice(deviceType) && buffer != cache
      requires at + bytesRemaining as int <= buffer.Length
      requires currentPartition.Some? && ioCurPos as int + bytesRemaining as int <= currentPartition.value.partitionLength as int
      modifies this`lastError, this`cacheCurBlock, this`cacheBlockCount, this`cacheSize, this`cache,
               this`cacheCurOffset, this`ioCurBlock, this`ioCurPos, this`osPos, this`disk, cache, buffer
      ensures Valid() && disk == old(disk) && buffer != cache
      ensures cache == old(cache) || fresh(cache)
      ensures copied <= bytesRemaining
      ensures Succeeded(ret) ==> ret == S_OK && ioCurPos as int == old(ioCurPos) as int + copied as int
      ensures Succeeded(ret) && osError != 0 ==> lastError == IO_OK
    {
      copied := 0;
      ret := CacheRawBlocks();
      if Succeeded(ret) {
        var left := CacheRemaining(State());
        var n := if bytesRemaining <= left then bytesRemaining else left;
        ret, copied := CopyCached(buffer, at, n);
      }
    }

    /**
     * Phase 2: read the whole blocks of the remainder, cut to the
     * partition, straight into the buffer from the position's block. The
     * bytes a successful block read delivers are counted even when they
     * are fewer than asked for, which fails the phase.
     */
    method ReadPhase2(buffer: array<u8>, at: nat, bytesRemaining: u64) returns (ret: HResult, added: u64)
      requires Valid() && IsBlockDevice(deviceType) && IoReady(State())
      requires at + bytesRemaining as int <= buffer.Length
      requires ioCurPos as int + bytesRemaining as int <= PartitionLength(State()) as int
      modifies this`lastError, this`ioCurBlock, this`ioCurPos, this`osPos, this`disk, buffer
      ensures Valid() && disk == old(disk)
      ensures added <= bytesRemaining
      ensures Succeeded(ret) ==> ret == S_OK && ioCurPos as int == old(ioCurPos) as int + added as int
      ensures Succeeded(ret) && osError != 0 ==> lastError == IO_OK
    {
      var block := FloorDiv(ioCurPos, blockSize);
      var bytesToRead := WholeBlocks(bytesRemaining, blockSize);
      var left := PartitionRemainingReadBytes(State());
      if bytesToRead > left {
        bytesToRead := left;
      }
      assert ioCurPos as int + bytesToRead as int <= PartitionLength(State()) as int;
      added := 0;
      ret := MoveToDeviceBlock(block);
      if Succeeded(ret) {
        ret, added := ReadWholeBlocks(buffer, at, bytesToRead);
      }
    }

    /**
     * Phase 2 at the block it moved to: read the whole blocks into the
     * buffer and advance IOCurPos and IOCurBlock by what was read; a short
     * read fails the phase.
     */
    method ReadWholeBlocks(buffer: array<u8>, at: nat, bytesToRead: u64) returns (ret: HResult, added: u64)
      requires Valid() && IsBlockDevice(deviceType)
      requires at + bytesToRead as int <= buffer.Length
      requires ioCurPos as int + bytesToRead as int <= PartitionLength(State()) as int
      modifies this`lastError, this`ioCurBlock, this`ioCurPos, this`osPos, this`disk, buffer
      ensures Valid() && disk == old(disk)
      ensures added <= bytesToRead
      ensures Succeeded(ret) ==> ret == S_OK && added == bytesToRead && ioCurPos as int == old(ioCurPos) as int + added as int
      ensures Succeeded(ret) && osError != 0 ==> lastError == IO_OK
    {
      ret, added := ReadBlocksFromDevice(buffer, at, bytesToRead);
      if Succeeded(ret) {
        ioCurPos := ioCurPos + added;
        ioCurBlock := Add64(ioCurBlock, FloorDiv(added, blockSize));
        if bytesToRead != added {
          ret := E_FAIL;
        }
      }
    }

    /**
     * Phase 3: copy the rest of the request, cut to the partition, from a
     * cache read at the position. A cache that holds fewer bytes past its
     * offset than that is read again from the position first. A failed
     * cache read is CACHE_READ unless it was EOF.
     */
    method ReadPhase3(buffer: array<u8>, at: nat, bytesRemaining: u64) returns (ret: HResult, copied: u64)
      requires Valid() && IsBlockDevice(deviceType) && IoReady(State()) && buffer != cache
      requires at + bytesRemaining as int <= buffer.Length
      requires ioCurPos as int + bytesRemaining as int <= PartitionLength(State()) as int
      modifies this`lastError, this`cacheCurBlock, this`cacheBlockCount, this`cacheSize, this`cache,
               this`cacheCurOffset, this`ioCurBlock, this`ioCurPos, this`osPos, this`disk, cache, buffer
      ensures Valid() && disk == old(disk)
      ensures copied <= bytesRemaining
      ensures Succeeded(ret) ==> ret == S_OK && ioCurPos as int == old(ioCurPos) as int + copied as int
      ensures Succeeded(ret) && osError != 0 ==> lastError == IO_OK && copied == bytesRemaining
    {
      var bytesToRead := Phase3Copy(State(), bytesRemaining);
      copied := 0;
      ret := CacheForCopy(bytesRemaining);
      if Succeeded(ret) {
        ret, copied := CopyCached(buffer, at, bytesToRead);
      }
    }

    /**
     * Phase 3's cache read: CacheRawBlocks, and once more from the
     * position when the cache it leaves holds too few bytes past its
     * offset for the copy. A failure that is not EOF is CACHE_READ.
     */
    method CacheForCopy(bytesRemaining: u64) returns (ret: HResult)
      requires Valid() && IsBlockDevice(deviceType)
      modifies this`lastError, this`cacheCurBlock, this`cacheBlockCount, this`cacheSize, this`cache,
               this`cacheCurOffset, this`ioCurBlock, this`ioCurPos, this`osPos, this`disk, cache
      ensures Valid() && disk == old(disk)
      ensures cache == old(cache) || fresh(cache)
      ensures ret == S_OK || ret == E_FAIL
      ensures ret == E_FAIL ==> lastError == IO_ERROR_EOF || lastError == IO_ERROR_CACHE_READ
      ensures ret == S_OK ==> lastError == IO_OK && cache != null && ioCurPos == old(ioCurPos)
    {
      ret := CacheRawBlocks();
      if Succeeded(ret) && Phase3NeedsRefresh(State(), bytesRemaining) {
        ret := RecacheAtPosition();
      }
      if !Succeeded(ret) && lastError != IO_ERROR_EOF {
        lastError := IO_ERROR_CACHE_READ;
      }
    }

    /** Drops the cached block, so that CacheRawBlocks reads the cache again at the position. */
    method RecacheAtPosition() returns (ret: HResult)
      requires Valid() && IsBlockDevice(deviceType)
      modifies this`lastError, this`cacheCurBlock, this`cacheBlockCount, this`cacheSize, this`cache,
               this`cacheCurOffset, this`ioCurBlock, this`ioCurPos, this`osPos, this`disk, cache
      ensures Valid() && disk == old(disk)
      ensures cache == old(cache) || fresh(cache)
      ensures ret == S_OK || ret == E_FAIL
      ensures ret == S_OK ==> lastError == IO_OK && cache != null && ioCurPos == old(ioCurPos)
    {
      cacheCurBlock := INVALID_BLOCK;
      ret := CacheRawBlocks();
    }

    /**
     * The copy phases 1 and 3 end with: `count` bytes from the cache at
     * CacheCurOffset into the buffer, advancing the cache offset and
     * IOCurPos; a failed copy is READ_COPY with the thread's last error
     * as the result.
     */
    method CopyCached(buffer: array<u8>, at: nat, count: u64) returns (ret: HResult, copied: u64)
      requires Valid() && cache != null && buffer != cache
      requires at + count as int <= buffer.Length && ioCurPos as int + count as int < U64_LIMIT
      modifies this`lastError, this`cacheCurOffset, this`ioCurPos, buffer
      ensures Valid()
      ensures old(cacheCurOffset) as int + count as int <= cache.Length ==>
                && ret == S_OK && copied == count && lastError == old(lastError)
                && cacheCurOffset as int == old(cacheCurOffset) as int + count as int
                && ioCurPos as int == old(ioCurPos) as int + count as int
                && buffer[at..at + count as int] == cache[old(cacheCurOffset)..cacheCurOffset]
      ensures old(cacheCurOffset) as int + count as int > cache.Length ==>
                && ret == HResultFromWin32(osError) && copied == 0 && lastError == IO_ERROR_READ_COPY
                && cacheCurOffset == old(cacheCurOffset) && ioCurPos == old(ioCurPos)
    {
      copied := 0;
      ret := S_OK;
      var ok := CopyFromCache(buffer, at, count);
      if !ok {
        lastError := IO_ERROR_READ_COPY;
        ret := HResultFromWin32(osError);
      } else {
        cacheCurOffset := cacheCurOffset + count;
        ioCurPos := ioCurPos + count;
        copied := count;
      }
    }

    /**
     * ReadFromFile: one SafeIO read of a plain file at the handle's
     * pointer. A failed SafeIO is READ_FILE with the thread's last error as
     * the result; nothing read is EOF; otherwise IOCurPos advances.
     */
    method ReadFromFile(buffer: array?<u8>, at: nat, bufferSize: u64) returns (ret: HResult, bytesRead: u64)
      requires Valid()
      requires buffer != null ==> at + bufferSize as int <= buffer.Length
      modifies this`lastError, this`ioCurPos, this`osPos, this`disk, buffer
      ensures Valid() && disk == old(disk)
      ensures buffer == null ==> ret == E_FAIL && bytesRead == 0 && lastError == IO_ERROR_NULL_POINTER && osPos == old(osPos)
      ensures buffer != null && bufferSize == 0 ==>
                ret == E_FAIL && bytesRead == 0 && lastError == IO_ERROR_INVALID_BUFFER_SIZE && osPos == old(osPos)
      ensures buffer != null && 0 < bufferSize ==>
                var n := if handleValid then Min(bufferSize as int, Available(|disk|, old(osPos))) else 0;
                var safeOk := handleValid && (n == bufferSize as int || osError == 0);
                && bytesRead as int == n && osPos == old(osPos) + n
                && (n > 0 ==> buffer[at..at + n] == disk[old(osPos)..osPos])
                && buffer[..at] == old(buffer[..at]) && buffer[at + n..] == old(buffer[at + n..])
                && (safeOk ==> ret == S_OK && FileReadDone(old(State()), bufferSize, bytesRead, State()))
                && (!safeOk ==> ret == HResultFromWin32(osError) && lastError == IO_ERROR_READ_FILE && ioCurPos == old(ioCurPos))
    {
      ret := E_FAIL;
      bytesRead := 0;
      if buffer == null {
        lastError := IO_ERROR_NULL_POINTER;
      } else if bufferSize == 0 {
        lastError := IO_ERROR_INVALID_BUFFER_SIZE;
      } else {
        ret, bytesRead := SafeIo(buffer, at, bufferSize, 0, IO_TYPE_READ);
        if !Succeeded(ret) {
          lastError := IO_ERROR_READ_FILE;
          ret := HResultFromWin32(osError);
        } else if bytesRead == 0 {
          lastError := IO_ERROR_EOF;
        } else {
          ioCurPos := Add64(ioCurPos, bytesRead);
          if bytesRead != bufferSize {
            lastError := IO_ERROR_READ_PARTIAL;
          } else {
            lastError := IO_OK;
          }
        }
      }
    }

    /**
     * Read: the public read at IOCurPos. After checking the buffer and
     * that the device is ready for I/O, a disk is read through
     * ReadFromBlockDevice and a plain file through ReadFromFile; any other
     * type is UNSUPPORTED_DEVICE_TYPE.
     */
    method Read(buffer: array?<u8>, at: nat, bufferSize: u64) returns (ret: HResult, bytesRead: u64)
      requires Valid()
      requires buffer != null ==> at + bufferSize as int <= buffer.Length && buffer != cache
      modifies this`lastError, this`cacheCurBlock, this`cacheBlockCount, this`cacheSize, this`cache,
               this`cacheCurOffset, this`ioCurBlock, this`ioCurPos, this`osPos, this`disk, cache, buffer
      ensures Valid() && disk == old(disk)
      ensures buffer == null ==> ret == E_FAIL && bytesRead == 0 && lastError == IO_ERROR_NULL_POINTER
      ensures buffer != null && bufferSize == 0 ==> ret == E_FAIL && bytesRead == 0 && lastError == IO_ERROR_INVALID_BUFFER_SIZE
      ensures buffer != null && 0 < bufferSize && !IoReady(old(State())) ==>
                ret == E_FAIL && bytesRead == 0 && lastError == IoReadyError(old(State()))
      ensures buffer != null && 0 < bufferSize && IoReady(old(State())) ==> ReadDone(old(State()), bufferSize, ret, bytesRead, State())
      ensures buffer != null && deviceType == PLAIN_FILE_DEVICE_TYPE && bytesRead > 0 ==>
                old(osPos) + bytesRead as int == osPos <= |disk| && buffer[at..at + bytesRead as int] == disk[old(osPos)..osPos]
    {
      ret := E_FAIL;
      bytesRead := 0;
      if buffer == null {
        lastError := IO_ERROR_NULL_POINTER;
      } else if bufferSize == 0 {
        lastError := IO_ERROR_INVALID_BUFFER_SIZE;
      } else {
        ReadyChecksOnlyRecordError(State());
        var ready := IsIoReady();
        if ready {
          assert State() == old(State());
          ret, bytesRead := ReadByType(buffer, at, bufferSize);
        }
      }
    }

    /**
     * Read's dispatch on the device type, once the device is ready for
     * I/O. Read records IO_OK before it, which every branch overwrites.
     */
    method ReadByType(buffer: array<u8>, at: nat, bufferSize: u64) returns (ret: HResult, bytesRead: u64)
      requires Valid() && IoReady(State()) && 0 < bufferSize
      requires at + bufferSize as int <= buffer.Length && buffer != cache
      modifies this`lastError, this`cacheCurBlock, this`cacheBlockCount, this`cacheSize, this`cache,
               this`cacheCurOffset, this`ioCurBlock, this`ioCurPos, this`osPos, this`disk, cache, buffer
      ensures Valid() && disk == old(disk)
      ensures ReadDone(old(State()), bufferSize, ret, bytesRead, State())
      ensures deviceType == PLAIN_FILE_DEVICE_TYPE && bytesRead > 0 ==>
                old(osPos) + bytesRead as int == osPos <= |disk| && buffer[at..at + bytesRead as int] == disk[old(osPos)..osPos]
    {
      ret := E_FAIL;
      bytesRead := 0;
      if IsBlockDevice(deviceType) {
        ret, bytesRead := ReadFromBlockDevice(buffer, at, bufferSize);
      } else if deviceType == PLAIN_FILE_DEVICE_TYPE {
        ret, bytesRead := ReadFromFile(buffer, at, bufferSize);
      } else {
        lastError := IO_ERROR_UNSUPPORTED_DEVICE_TYPE;
      }
    }

    /**
     * ReadAtOffset: SetPos to a LARGE_INTEGER offset (taken as a ULONGLONG
     * position), then Read; with READ_EXACT a read shorter than the
     * request is turned into READ_PARTIAL and E_FAIL.
     */
    method ReadAtOffset(buffer: array?<u8>, at: nat, bufferSize: u64, offset: int, readExact: bool) returns (ret: HResult)
      requires Valid() && -LARGE_INTEGER_LIMIT <= offset < LARGE_INTEGER_LIMIT
      requires buffer != null ==> at + bufferSize as int <= buffer.Length && buffer != cache
      modifies this`lastError, this`cacheCurBlock, this`cacheBlockCount, this`cacheSize, this`cache,
               this`cacheCurOffset, this`ioCurBlock, this`ioCurPos, this`osPos, this`disk, cache, buffer
      ensures Valid() && disk == old(disk)
      ensures !DeviceReady(old(State())) ==> ret == E_FAIL
      ensures IsBlockDevice(deviceType) && Succeeded(ret) && osError != 0 ==>
                var p := Trunc64(offset);
                && p < CurrentPartitionSize(old(State()))
                && ioCurPos as int == Min(p as int + bufferSize as int, CurrentPartitionSize(old(State())) as int)
                && lastError == (if ioCurPos as int == p as int + bufferSize as int then IO_OK else IO_ERROR_READ_PARTIAL)
      ensures readExact && Succeeded(ret) && buffer != null && deviceType == PLAIN_FILE_DEVICE_TYPE ==>
                bufferSize as int <= osPos <= |disk| && buffer[at..at + bufferSize as int] == disk[osPos - bufferSize as int..osPos]
      ensures readExact && Succeeded(ret) && IsBlockDevice(deviceType) && osError != 0 ==>
                ioCurPos as int == Trunc64(offset) as int + bufferSize as int && lastError == IO_OK
    {
      ret := SetIoPosition(Trunc64(offset));
      if Succeeded(ret) {
        ret := ReadChecked(buffer, at, bufferSize, readExact);
      }
    }

    /** ReadAtOffset once the position is set: Read, failing a short read under READ_EXACT. */
    method ReadChecked(buffer: array?<u8>, at: nat, bufferSize: u64, readExact: bool) returns (ret: HResult)
      requires Valid()
      requires buffer != null ==> at + bufferSize as int <= buffer.Length && buffer != cache
      modifies this`lastError, this`cacheCurBlock, this`cacheBlockCount, this`cacheSize, this`cache,
               this`cacheCurOffset, this`ioCurBlock, this`ioCurPos, this`osPos, this`disk, cache, buffer
      ensures Valid() && disk == old(disk)
      ensures IsBlockDevice(deviceType) && Succeeded(ret) && osError != 0 ==>
                && old(ioCurPos) < PartitionLength(old(State()))
                && ioCurPos as int == Min(old(ioCurPos) as int + bufferSize as int, PartitionLength(old(State())) as int)
                && lastError == (if ioCurPos as int == old(ioCurPos) as int + bufferSize as int then IO_OK else IO_ERROR_READ_PARTIAL)
      ensures readExact && Succeeded(ret) && buffer != null && deviceType == PLAIN_FILE_DEVICE_TYPE ==>
                bufferSize as int <= osPos <= |disk| && buffer[at..at + bufferSize as int] == disk[osPos - bufferSize as int..osPos]
      ensures readExact && Succeeded(ret) && IsBlockDevice(deviceType) && osError != 0 ==>
                ioCurPos as int == old(ioCurPos) as int + bufferSize as int && lastError == IO_OK
    {
      var bytesRead;
      ret, bytesRead := Read(buffer, at, bufferSize);
      if Succeeded(ret) && readExact && bufferSize != bytesRead {
        lastError := IO_ERROR_READ_PARTIAL;
        ret := E_FAIL;
      }
    }
  }

  /** Two writes that follow each other are one write of both. */
  lemma OverwriteAppend(store: seq<u8>, pos: nat, a: seq<u8>, b: seq<u8>)
    requires |a| + |b| == 0 || pos + |a| + |b| <= |store|
    ensures Overwrite(Overwrite(store, pos, a), pos + |a|, b) == Overwrite(store, pos, a + b)
  {
    var l := Overwrite(Overwrite(store, pos, a), pos + |a|, b);
    var r := Overwrite(store, pos, a + b);
    forall i | 0 <= i < |store|
      ensures l[i] == r[i]
    {
      if pos <= i < pos + |a| {
        assert Overwrite(store, pos, a)[pos..pos + |a|] == a;
        assert r[pos..pos + |a| + |b|] == a + b;
        assert l[i] == Overwrite(store, pos, a)[i] == a[i - pos] == (a + b)[i - pos];
      } else if pos + |a| <= i < pos + |a| + |b| {
        assert l[pos + |a|..pos + |a| + |b|] == b;
        assert r[pos..pos + |a| + |b|] == a + b;
        assert l[i] == b[i - pos - |a|] == (a + b)[i - pos];
      }
    }
  }

  /**
   * AllocateCache's search: each pass tries a malloc of blockSize * count
   * bytes, which succeeds within the heap limit, and drops a block after
   * a failure. The passes that fail change nothing but the count. A
   * count of 0 means every try failed, unless none was asked for.
   */
  method FitBlocks(blockSize: u32, c0: u32, limit: nat) returns (count: u32, size: u32)
    requires blockSize > 0 && blockSize as int * c0 as int <= MAX_ULONG as int
    ensures count <= c0 && size as int == blockSize as int * count as int
    ensures count > 0 ==> size as int <= limit
    ensures count == c0 || limit < size as int + blockSize as int
    ensures count > 0 || c0 == 0 <==> c0 == 0 || blockSize as int <= limit
  {
    count := c0;
    size := blockSize * count;
    MulSign(count as int, blockSize as int);
    while size as int > limit && count > 0
      invariant count <= c0
      invariant size as int == blockSize as int * count as int
      invariant count > 0 ==> blockSize <= size
      invariant count == c0 || limit < size as int + blockSize as int
      decreases count
    {
      count := count - 1;
      MulPred(count as int, blockSize as int);
      size := size - blockSize;
      MulSign(count as int, blockSize as int);
    }
  }

  /** One block fewer is blockSize bytes fewer. */
  lemma MulPred(n: int, b: int)
    ensures b * (n + 1) == b * n + b
  {
  }

  /**
   * The read loop's progress: the first `done` bytes from `at` hold the
   * store's bytes from `p0`, and the rest of the buffer is as it was.
   */
  ghost predicate ReadSoFar(b: seq<u8>, b0: seq<u8>, store: seq<u8>, at: nat, done: nat, p0: nat)
  {
    && |b| == |b0| && at + done <= |b|
    && (done > 0 ==> p0 + done <= |store| && b[at..at + done] == store[p0..p0 + done])
    && b[..at] == b0[..at] && b[at + done..] == b0[at + done..]
  }

  /**
   * One pass of SafeIO's loop, in counts: a pass of k bytes at done bytes
   * in stays within the store, a pass that moves nothing comes only once
   * the store is exhausted (or nothing was asked), and a pass that moves
   * the rest of the request leaves the request within the store.
   */
  lemma ChunkStep(size: nat, pos0: nat, bufferSize: nat, done: nat, thisRead: nat, k: nat)
    requires done <= Available(size, pos0) && done <= bufferSize
    requires thisRead <= bufferSize - done && (thisRead == 0 ==> done == bufferSize)
    requires k == Min(thisRead, Available(size, pos0 + done))
    ensures done + k <= Available(size, pos0)
    ensures k == 0 ==> done == Min(bufferSize, Available(size, pos0))
    ensures done + k == bufferSize ==> bufferSize == Min(bufferSize, Available(size, pos0))
  {
  }

  /** SafeIO's progress after `done` bytes: read into the buffer, or written over the store. */
  ghost predicate Progress(ioFlag: IoType, b: seq<u8>, b0: seq<u8>, d: seq<u8>, d0: seq<u8>, at: nat, done: nat, p0: nat)
  {
    if ioFlag == IO_TYPE_READ then d == d0 && ReadSoFar(b, b0, d, at, done, p0)
    else ioFlag == IO_TYPE_WRITE && b == b0 && WroteSoFar(d, d0, b, at, done, p0)
  }

  /** The read loop's buffer after one more chunk: the chunk joins the bytes read so far. */
  lemma ReadJoin(b0: seq<u8>, b1: seq<u8>, orig: seq<u8>, store: seq<u8>, at: nat, done: nat, k: nat, p0: nat)
    requires ReadSoFar(b0, orig, store, at, done, p0)
    requires |b1| == |b0| && at + done + k <= |b1|
    requires k > 0 ==> p0 + done + k <= |store| && b1[at + done..at + done + k] == store[p0 + done..p0 + done + k]
    requires b1[..at + done] == b0[..at + done] && b1[at + done + k..] == b0[at + done + k..]
    ensures ReadSoFar(b1, orig, store, at, done + k, p0)
  {
    assert b1[..at] == b1[..at + done][..at];
    assert b0[..at] == b0[..at + done][..at];
    assert b1[at + done + k..] == b0[at + done..][k..];
    assert orig[at + done + k..] == orig[at + done..][k..];
    if done + k == 0 {
      return;
    }
    assert b1[at..at + done + k] == b1[at..at + done] + b1[at + done..at + done + k];
    assert b1[at..at + done] == b0[at..at + done] by {
      assert b1[at..at + done] == b1[..at + done][at..];
      assert b0[at..at + done] == b0[..at + done][at..];
    }
    assert store[p0..p0 + done + k] == store[p0..p0 + done] + store[p0 + done..p0 + done + k];
  }

  /**
   * The write loop's progress: the store holds the first `done` bytes from
   * `at` written at `p0`, and every other byte as it was.
   */
  ghost predicate WroteSoFar(d: seq<u8>, store: seq<u8>, b: seq<u8>, at: nat, done: nat, p0: nat)
  {
    && |d| == |store| && at + done <= |b| && (done == 0 || p0 + done <= |store|)
    && (done == 0 ==> d == store)
    && (done > 0 ==> d[p0..p0 + done] == b[at..at + done] && d[..p0] == store[..p0] && d[p0 + done..] == store[p0 + done..])
  }

  /** The write loop's progress is the one write of those bytes. */
  lemma WroteSoFarOverwrite(d: seq<u8>, store: seq<u8>, b: seq<u8>, at: nat, done: nat, p0: nat)
    requires WroteSoFar(d, store, b, at, done, p0)
    ensures d == Overwrite(store, p0, b[at..at + done])
  {
    if done > 0 {
      assert d == d[..p0] + d[p0..p0 + done] + d[p0 + done..];
    }
  }

  /** The write loop's store after one more chunk: the chunk joins the bytes written so far. */
  lemma WriteJoin(store: seq<u8>, d0: seq<u8>, d1: seq<u8>, b: seq<u8>, at: nat, done: nat, k: nat, p0: nat)
    requires WroteSoFar(d0, store, b, at, done, p0)
    requires at + done + k <= |b| && |d0| == |store|
    requires k == 0 || p0 + done + k <= |store|
    requires d1 == Overwrite(d0, p0 + done, b[at + done..at + done + k])
    ensures WroteSoFar(d1, store, b, at, done + k, p0)
  {
    WroteSoFarOverwrite(d0, store, b, at, done, p0);
    OverwriteAppend(store, p0, b[at..at + done], b[at + done..at + done + k]);
    assert b[at..at + done] + b[at + done..at + done + k] == b[at..at + done + k];
  }
}
