// The device-specific information record appended to rawdump.bin
// (common/lib/Device_Specific.cpp, common/include/Device_Specific.h): the
// struct, its byte image in its three historical layouts, the layout
// detection of ReadDeviceSpecificInfo and the stamping of
// WriteDeviceSpecificInfo.
module DeviceSpecific {
  import opened Machine
  import opened Status
  import opened RawDumpDefs
  import opened DeviceIoDefs
  import opened DeviceIo

  const DEVICE_SPECIFIC_INFO_SIGNATURE: u64 := 0x666e_4970_5376_6544   // "DevSpInf"
  const DEVICE_SPECIFIC_INFO_STRUCT_VERSION: u32 := 1
  const BUGCHECK_CODE: u32 := 0x14C

  /** The size of the buffer appended at the end of the raw dump. */
  const DEVICE_SPECIFIC_INFO_BUFFER_LENGTH: nat := 1024

  /** sizeof DEVICE_SPECIFIC_INFO (pack 1), and PAYLOAD_SIZE: what follows Signature, Version and PayloadSize. */
  const DEVICE_SPECIFIC_INFO_SIZE: nat := 76
  const PAYLOAD_SIZE: u32 := 60

  /**
   * WriteDeviceSpecificInfo's local buffer is declared as an array of
   * 1024 PCHAR, so its sizeof is 1024 pointers: 8192 bytes on a 64-bit
   * build.
   */
  const POINTER_SIZE: nat := 8
  const POINTER_BUFFER_SIZE: nat := DEVICE_SPECIFIC_INFO_BUFFER_LENGTH * POINTER_SIZE

  const PROCESSOR_ARCHITECTURE_INTEL: u32 := 0
  const PROCESSOR_ARCHITECTURE_ARM: u32 := 5
  const PROCESSOR_ARCHITECTURE_ARM64: u32 := 12
  const DEVICE_TYPE_INTELx86: u32 := 1
  const DEVICE_TYPE_QCOM32: u32 := 2

  /**
   * DEVICE_SPECIFIC_INFO. The union of the template holds either
   * APRegPA, VA, PA and Size or CpuContextAddress, which shares APRegPA's
   * eight bytes; `apRegPa` is that storage under both names.
   */
  datatype DeviceSpecificInfo = DeviceSpecificInfo(
    signature: u64,
    version: u32,
    payloadSize: u32,
    deviceType: u32,
    dumpHeaderInstanceId: u64,
    apRegPa: u64,
    va: u64,
    pa: u64,
    size: u32,
    bugCheckCode: u32,
    bugCheckParam1: u32,
    bugCheckParam2: u32,
    bugCheckParam3: u32,
    bugCheckParam4: u32)

  /** CpuContextAddress: the union read as the Intel member. */
  function CpuContextAddress(x: DeviceSpecificInfo): u64
  {
    x.apRegPa
  }

  /** The types whose union is CpuContextAddress. */
  predicate IsIntelType(t: u32)
  {
    t == DEVICE_TYPE_INTELx86 || t == PROCESSOR_ARCHITECTURE_INTEL
  }

  /** The types whose union is APRegPA, VA, PA and Size. */
  predicate IsArmType(t: u32)
  {
    t == DEVICE_TYPE_QCOM32 || t == PROCESSOR_ARCHITECTURE_ARM || t == PROCESSOR_ARCHITECTURE_ARM64
  }

  /** PACK_FLAG. */
  datatype PackFlag = UsePackUndefined | UseLatest | UseUnsignedPacked | UseUnsignedUnpacked

  /**
   * Where a layout keeps each field of the template: `header` says
   * whether Signature, Version and PayloadSize come first (at 0, 8, 12).
   */
  datatype Layout = Layout(
    header: bool,
    typeAt: nat, instanceIdAt: nat, apRegPaAt: nat, vaAt: nat, paAt: nat, sizeAt: nat,
    bugCheckCodeAt: nat, param1At: nat, param2At: nat, param3At: nat, param4At: nat)

  /** DEVICE_SPECIFIC_INFO: the signed header, then the template packed. */
  const LATEST: Layout := Layout(true, 16, 20, 28, 36, 44, 52, 56, 60, 64, 68, 72)

  /** DEVICE_SPECIFIC_INFO_UNSIGNED_PACKED: the template under pack(1). */
  const PACKED: Layout := Layout(false, 0, 4, 12, 20, 28, 36, 40, 44, 48, 52, 56)

  /**
   * DEVICE_SPECIFIC_INFO_UNSIGNED_UNPACKED: the template with natural
   * alignment, which pads Type to 8 bytes and the union's inner struct
   * (VA, PA, Size) to 24.
   */
  const UNPACKED: Layout := Layout(false, 0, 8, 16, 24, 32, 40, 48, 52, 56, 60, 64)

  predicate KnownLayout(l: Layout)
  {
    l == LATEST || l == PACKED || l == UNPACKED
  }

  /** The layout each packing flag casts the buffer to. */
  function LayoutOf(p: PackFlag): (l: Layout)
    requires p != UsePackUndefined
    ensures KnownLayout(l)
  {
    match p
    case UseLatest => LATEST
    case UseUnsignedPacked => PACKED
    case UseUnsignedUnpacked => UNPACKED
  }

  /** Byte k of the w-byte little-endian value v. */
  function Digit(v: nat, w: nat, k: nat): u8
    requires k < w
  {
    EncodeLE(v, w)[k]
  }

  /**
   * Byte i of a struct laid out by l in a zeroed buffer: the byte of the
   * field that covers i, or 0 for padding and the rest of the buffer.
   */
  function ByteOf(x: DeviceSpecificInfo, l: Layout, i: nat): u8
  {
    if l.header && i < 8 then Digit(x.signature, 8, i)
    else if l.header && 8 <= i < 12 then Digit(x.version, 4, i - 8)
    else if l.header && 12 <= i < 16 then Digit(x.payloadSize, 4, i - 12)
    else if l.typeAt <= i < l.typeAt + 4 then Digit(x.deviceType, 4, i - l.typeAt)
    else if l.instanceIdAt <= i < l.instanceIdAt + 8 then Digit(x.dumpHeaderInstanceId, 8, i - l.instanceIdAt)
    else if l.apRegPaAt <= i < l.apRegPaAt + 8 then Digit(x.apRegPa, 8, i - l.apRegPaAt)
    else if l.vaAt <= i < l.vaAt + 8 then Digit(x.va, 8, i - l.vaAt)
    else if l.paAt <= i < l.paAt + 8 then Digit(x.pa, 8, i - l.paAt)
    else if l.sizeAt <= i < l.sizeAt + 4 then Digit(x.size, 4, i - l.sizeAt)
    else if l.bugCheckCodeAt <= i < l.bugCheckCodeAt + 4 then Digit(x.bugCheckCode, 4, i - l.bugCheckCodeAt)
    else if l.param1At <= i < l.param1At + 4 then Digit(x.bugCheckParam1, 4, i - l.param1At)
    else if l.param2At <= i < l.param2At + 4 then Digit(x.bugCheckParam2, 4, i - l.param2At)
    else if l.param3At <= i < l.param3At + 4 then Digit(x.bugCheckParam3, 4, i - l.param3At)
    else if l.param4At <= i < l.param4At + 4 then Digit(x.bugCheckParam4, 4, i - l.param4At)
    else 0
  }

  /** The 1024-byte buffer holding x in layout l, the rest zero. */
  function Image(x: DeviceSpecificInfo, l: Layout): (r: seq<u8>)
    ensures |r| == DEVICE_SPECIFIC_INFO_BUFFER_LENGTH
  {
    seq(DEVICE_SPECIFIC_INFO_BUFFER_LENGTH, i requires 0 <= i < DEVICE_SPECIFIC_INFO_BUFFER_LENGTH => ByteOf(x, l, i))
  }

  /** The bytes of x's image at off..off+w that agree with v's encoding read back as v. */
  lemma ReadsBack(x: DeviceSpecificInfo, l: Layout, off: nat, w: nat, v: nat)
    requires off + w <= DEVICE_SPECIFIC_INFO_BUFFER_LENGTH && v < Pow256(w)
    requires forall j :: 0 <= j < w ==> ByteOf(x, l, off + j) == Digit(v, w, j)
    ensures LE(Image(x, l)[off..off + w]) == v
  {
    var b := Image(x, l);
    assert b[off..off + w] == EncodeLE(v, w) by {
      forall j | 0 <= j < w
        ensures b[off..off + w][j] == EncodeLE(v, w)[j]
      {
        assert b[off..off + w][j] == b[off + j] == ByteOf(x, l, off + j) == Digit(v, w, j);
      }
    }
    EncodeDecodeLE(v, w);
    ModOfSmall(v, Pow256(w));
  }

  /** The template fields of x as read from a buffer by layout l. */
  predicate HoldsTemplate(b: seq<u8>, l: Layout, x: DeviceSpecificInfo)
    requires |b| == DEVICE_SPECIFIC_INFO_BUFFER_LENGTH && KnownLayout(l)
  {
    && U32At(b, l.typeAt) == x.deviceType
    && U64At(b, l.instanceIdAt) == x.dumpHeaderInstanceId
    && U64At(b, l.apRegPaAt) == x.apRegPa
    && U64At(b, l.vaAt) == x.va
    && U64At(b, l.paAt) == x.pa
    && U32At(b, l.sizeAt) == x.size
    && U32At(b, l.bugCheckCodeAt) == x.bugCheckCode
    && U32At(b, l.param1At) == x.bugCheckParam1
    && U32At(b, l.param2At) == x.bugCheckParam2
    && U32At(b, l.param3At) == x.bugCheckParam3
    && U32At(b, l.param4At) == x.bugCheckParam4
  }

  /** Each field of x's image in a known layout reads back as that field. */
  lemma ImageReadsBack(x: DeviceSpecificInfo, l: Layout)
    requires KnownLayout(l)
    ensures HoldsTemplate(Image(x, l), l, x)
    ensures l.header ==> U64At(Image(x, l), 0) == x.signature
                         && U32At(Image(x, l), 8) == x.version && U32At(Image(x, l), 12) == x.payloadSize
  {
    Pow256Is(4);
    Pow256Is(8);
    if l == LATEST {
      LatestReadsBack(x);
    } else if l == PACKED {
      PackedReadsBack(x);
    } else {
      UnpackedReadsBack(x);
    }
  }

  lemma LatestFields1(x: DeviceSpecificInfo)
    ensures U32At(Image(x, LATEST), 16) == x.deviceType
    ensures U64At(Image(x, LATEST), 20) == x.dumpHeaderInstanceId
    ensures U64At(Image(x, LATEST), 28) == x.apRegPa
    ensures U64At(Image(x, LATEST), 36) == x.va
  {
    Pow256Is(4);
    Pow256Is(8);
    ReadsBack(x, LATEST, 16, 4, x.deviceType);
    ReadsBack(x, LATEST, 20, 8, x.dumpHeaderInstanceId);
    ReadsBack(x, LATEST, 28, 8, x.apRegPa);
    ReadsBack(x, LATEST, 36, 8, x.va);
  }

  lemma LatestFields2(x: DeviceSpecificInfo)
    ensures U64At(Image(x, LATEST), 44) == x.pa
    ensures U32At(Image(x, LATEST), 52) == x.size
    ensures U32At(Image(x, LATEST), 56) == x.bugCheckCode
    ensures U32At(Image(x, LATEST), 60) == x.bugCheckParam1
  {
    Pow256Is(4);
    Pow256Is(8);
    ReadsBack(x, LATEST, 44, 8, x.pa);
    ReadsBack(x, LATEST, 52, 4, x.size);
    ReadsBack(x, LATEST, 56, 4, x.bugCheckCode);
    ReadsBack(x, LATEST, 60, 4, x.bugCheckParam1);
  }

  lemma LatestFields3(x: DeviceSpecificInfo)
    ensures U32At(Image(x, LATEST), 64) == x.bugCheckParam2
    ensures U32At(Image(x, LATEST), 68) == x.bugCheckParam3
    ensures U32At(Image(x, LATEST), 72) == x.bugCheckParam4
    ensures U64At(Image(x, LATEST), 0) == x.signature
  {
    Pow256Is(4);
    Pow256Is(8);
    ReadsBack(x, LATEST, 64, 4, x.bugCheckParam2);
    ReadsBack(x, LATEST, 68, 4, x.bugCheckParam3);
    ReadsBack(x, LATEST, 72, 4, x.bugCheckParam4);
    ReadsBack(x, LATEST, 0, 8, x.signature);
  }

  lemma LatestFields4(x: DeviceSpecificInfo)
    ensures U32At(Image(x, LATEST), 8) == x.version
    ensures U32At(Image(x, LATEST), 12) == x.payloadSize
  {
    Pow256Is(4);
    ReadsBack(x, LATEST, 8, 4, x.version);
    ReadsBack(x, LATEST, 12, 4, x.payloadSize);
  }

  lemma LatestReadsBack(x: DeviceSpecificInfo)
    ensures HoldsTemplate(Image(x, LATEST), LATEST, x)
    ensures U64At(Image(x, LATEST), 0) == x.signature && U32At(Image(x, LATEST), 8) == x.version
    ensures U32At(Image(x, LATEST), 12) == x.payloadSize
  {
    LatestFields1(x);
    LatestFields2(x);
    LatestFields3(x);
    LatestFields4(x);
  }

  lemma PackedFields1(x: DeviceSpecificInfo)
    ensures U32At(Image(x, PACKED), 0) == x.deviceType
    ensures U64At(Image(x, PACKED), 4) == x.dumpHeaderInstanceId
    ensures U64At(Image(x, PACKED), 12) == x.apRegPa
    ensures U64At(Image(x, PACKED), 20) == x.va
  {
    Pow256Is(4);
    Pow256Is(8);
    ReadsBack(x, PACKED, 0, 4, x.deviceType);
    ReadsBack(x, PACKED, 4, 8, x.dumpHeaderInstanceId);
    ReadsBack(x, PACKED, 12, 8, x.apRegPa);
    ReadsBack(x, PACKED, 20, 8, x.va);
  }

  lemma PackedFields2(x: DeviceSpecificInfo)
    ensures U64At(Image(x, PACKED), 28) == x.pa
    ensures U32At(Image(x, PACKED), 36) == x.size
    ensures U32At(Image(x, PACKED), 40) == x.bugCheckCode
    ensures U32At(Image(x, PACKED), 44) == x.bugCheckParam1
  {
    Pow256Is(4);
    Pow256Is(8);
    ReadsBack(x, PACKED, 28, 8, x.pa);
    ReadsBack(x, PACKED, 36, 4, x.size);
    ReadsBack(x, PACKED, 40, 4, x.bugCheckCode);
    ReadsBack(x, PACKED, 44, 4, x.bugCheckParam1);
  }

  lemma PackedFields3(x: DeviceSpecificInfo)
    ensures U32At(Image(x, PACKED), 48) == x.bugCheckParam2
    ensures U32At(Image(x, PACKED), 52) == x.bugCheckParam3
    ensures U32At(Image(x, PACKED), 56) == x.bugCheckParam4
  {
    Pow256Is(4);
    ReadsBack(x, PACKED, 48, 4, x.bugCheckParam2);
    ReadsBack(x, PACKED, 52, 4, x.bugCheckParam3);
    ReadsBack(x, PACKED, 56, 4, x.bugCheckParam4);
  }

  lemma PackedReadsBack(x: DeviceSpecificInfo)
    ensures HoldsTemplate(Image(x, PACKED), PACKED, x)
  {
    PackedFields1(x);
    PackedFields2(x);
    PackedFields3(x);
  }

  lemma UnpackedFields1(x: DeviceSpecificInfo)
    ensures U32At(Image(x, UNPACKED), 0) == x.deviceType
    ensures U64At(Image(x, UNPACKED), 8) == x.dumpHeaderInstanceId
    ensures U64At(Image(x, UNPACKED), 16) == x.apRegPa
    ensures U64At(Image(x, UNPACKED), 24) == x.va
  {
    Pow256Is(4);
    Pow256Is(8);
    ReadsBack(x, UNPACKED, 0, 4, x.deviceType);
    ReadsBack(x, UNPACKED, 8, 8, x.dumpHeaderInstanceId);
    ReadsBack(x, UNPACKED, 16, 8, x.apRegPa);
    ReadsBack(x, UNPACKED, 24, 8, x.va);
  }

  lemma UnpackedFields2(x: DeviceSpecificInfo)
    ensures U64At(Image(x, UNPACKED), 32) == x.pa
    ensures U32At(Image(x, UNPACKED), 40) == x.size
    ensures U32At(Image(x, UNPACKED), 48) == x.bugCheckCode
    ensures U32At(Image(x, UNPACKED), 52) == x.bugCheckParam1
  {
    Pow256Is(4);
    Pow256Is(8);
    ReadsBack(x, UNPACKED, 32, 8, x.pa);
    ReadsBack(x, UNPACKED, 40, 4, x.size);
    ReadsBack(x, UNPACKED, 48, 4, x.bugCheckCode);
    ReadsBack(x, UNPACKED, 52, 4, x.bugCheckParam1);
  }

  lemma UnpackedFields3(x: DeviceSpecificInfo)
    ensures U32At(Image(x, UNPACKED), 56) == x.bugCheckParam2
    ensures U32At(Image(x, UNPACKED), 60) == x.bugCheckParam3
    ensures U32At(Image(x, UNPACKED), 64) == x.bugCheckParam4
  {
    Pow256Is(4);
    ReadsBack(x, UNPACKED, 56, 4, x.bugCheckParam2);
    ReadsBack(x, UNPACKED, 60, 4, x.bugCheckParam3);
    ReadsBack(x, UNPACKED, 64, 4, x.bugCheckParam4);
  }

  lemma UnpackedReadsBack(x: DeviceSpecificInfo)
    ensures HoldsTemplate(Image(x, UNPACKED), UNPACKED, x)
  {
    UnpackedFields1(x);
    UnpackedFields2(x);
    UnpackedFields3(x);
  }

  // ------------------------------------------------------------ reading

  /**
   * The layout ReadDeviceSpecificInfo settles on, in the order it tries
   * them: the signature at the start, then the bugcheck code 0x14C where
   * the packed legacy struct keeps it, then where the unpacked one does.
   */
  function DetectPacking(b: seq<u8>): PackFlag
    requires |b| == DEVICE_SPECIFIC_INFO_BUFFER_LENGTH
  {
    if U64At(b, 0) == DEVICE_SPECIFIC_INFO_SIGNATURE then UseLatest
    else if U32At(b, PACKED.bugCheckCodeAt) == BUGCHECK_CODE then UseUnsignedPacked
    else if U32At(b, UNPACKED.bugCheckCodeAt) == BUGCHECK_CODE then UseUnsignedUnpacked
    else UsePackUndefined
  }

  /** The HRESULT of a read and the caller's struct after it. */
  datatype ReadResult = ReadResult(hr: HResult, context: DeviceSpecificInfo)

  /** The fields a read always copies, once the layout is known: Type, the instance ID, the bugcheck code and parameters. */
  predicate HoldsBase(b: seq<u8>, l: Layout, c: DeviceSpecificInfo)
    requires |b| == DEVICE_SPECIFIC_INFO_BUFFER_LENGTH && KnownLayout(l)
  {
    && c.deviceType == U32At(b, l.typeAt)
    && c.dumpHeaderInstanceId == U64At(b, l.instanceIdAt)
    && c.bugCheckCode == U32At(b, l.bugCheckCodeAt)
    && c.bugCheckParam1 == U32At(b, l.param1At)
    && c.bugCheckParam2 == U32At(b, l.param2At)
    && c.bugCheckParam3 == U32At(b, l.param3At)
    && c.bugCheckParam4 == U32At(b, l.param4At)
  }

  /**
   * ReadDeviceSpecificInfo once the 1024 bytes are in: the layout is
   * detected, the base fields copied into the caller's struct, and the
   * union copied as the member Type selects. The struct's own
   * Signature, Version and PayloadSize are never written.
   */
  function DecodeRecord(b: seq<u8>, context: DeviceSpecificInfo): (r: ReadResult)
    requires |b| == DEVICE_SPECIFIC_INFO_BUFFER_LENGTH
    ensures r.context.signature == context.signature && r.context.version == context.version
            && r.context.payloadSize == context.payloadSize
    ensures r.hr == S_OK || r.hr == E_FAIL
    ensures DetectPacking(b) == UsePackUndefined ==> r == ReadResult(E_FAIL, context)
    ensures DetectPacking(b) != UsePackUndefined ==>
              var l := LayoutOf(DetectPacking(b));
              && HoldsBase(b, l, r.context)
              && (r.hr == S_OK <==> IsIntelType(r.context.deviceType) || IsArmType(r.context.deviceType))
              && (IsIntelType(r.context.deviceType) ==>
                    CpuContextAddress(r.context) == U64At(b, l.apRegPaAt)
                    && r.context.va == context.va && r.context.pa == context.pa && r.context.size == context.size)
              && (IsArmType(r.context.deviceType) ==> HoldsTemplate(b, l, r.context))
              && (r.hr == E_FAIL ==> r.context.(deviceType := context.deviceType, dumpHeaderInstanceId := context.dumpHeaderInstanceId,
                                                bugCheckCode := context.bugCheckCode, bugCheckParam1 := context.bugCheckParam1,
                                                bugCheckParam2 := context.bugCheckParam2, bugCheckParam3 := context.bugCheckParam3,
                                                bugCheckParam4 := context.bugCheckParam4) == context)
  {
    var p := DetectPacking(b);
    if p == UsePackUndefined then ReadResult(E_FAIL, context)
    else
      var l := LayoutOf(p);
      var c := context.(deviceType := U32At(b, l.typeAt), dumpHeaderInstanceId := U64At(b, l.instanceIdAt),
                        bugCheckCode := U32At(b, l.bugCheckCodeAt), bugCheckParam1 := U32At(b, l.param1At),
                        bugCheckParam2 := U32At(b, l.param2At), bugCheckParam3 := U32At(b, l.param3At),
                        bugCheckParam4 := U32At(b, l.param4At));
      if IsIntelType(c.deviceType) then ReadResult(S_OK, c.(apRegPa := U64At(b, l.apRegPaAt)))
      else if IsArmType(c.deviceType) then
        ReadResult(S_OK, c.(apRegPa := U64At(b, l.apRegPaAt), va := U64At(b, l.vaAt), pa := U64At(b, l.paAt), size := U32At(b, l.sizeAt)))
      else ReadResult(E_FAIL, c)
  }

  /**
   * What reading back x's record leaves in a caller's struct v: the
   * template fields of x, the union only as far as x's type selects, and
   * v's own Signature, Version and PayloadSize.
   */
  function Reread(v: DeviceSpecificInfo, x: DeviceSpecificInfo): DeviceSpecificInfo
  {
    var c := v.(deviceType := x.deviceType, dumpHeaderInstanceId := x.dumpHeaderInstanceId, bugCheckCode := x.bugCheckCode,
                bugCheckParam1 := x.bugCheckParam1, bugCheckParam2 := x.bugCheckParam2,
                bugCheckParam3 := x.bugCheckParam3, bugCheckParam4 := x.bugCheckParam4, apRegPa := x.apRegPa);
    if IsIntelType(x.deviceType) then c else c.(va := x.va, pa := x.pa, size := x.size)
  }

  /** A buffer holding x's template in a detected layout decodes to Reread(v, x), when x's type is one the reader knows. */
  lemma DecodeHeldTemplate(b: seq<u8>, x: DeviceSpecificInfo, v: DeviceSpecificInfo)
    requires |b| == DEVICE_SPECIFIC_INFO_BUFFER_LENGTH && DetectPacking(b) != UsePackUndefined
    requires HoldsTemplate(b, LayoutOf(DetectPacking(b)), x)
    requires IsIntelType(x.deviceType) || IsArmType(x.deviceType)
    ensures DecodeRecord(b, v) == ReadResult(S_OK, Reread(v, x))
  {
  }

  /** A legacy packed record (no signature, bugcheck code 0x14C) is read with the packed layout and reproduces its fields. */
  lemma PackedLegacyReadsBack(x: DeviceSpecificInfo, v: DeviceSpecificInfo)
    requires IsIntelType(x.deviceType) || IsArmType(x.deviceType)
    requires x.bugCheckCode == BUGCHECK_CODE
    ensures DetectPacking(Image(x, PACKED)) == UseUnsignedPacked
    ensures DecodeRecord(Image(x, PACKED), v) == ReadResult(S_OK, Reread(v, x))
  {
    var b := Image(x, PACKED);
    PackedReadsBack(x);
    NoSignatureBelow(b);
    DecodeHeldTemplate(b, x, v);
  }

  /** The first eight bytes do not hold the signature when the first four hold a small Type. */
  lemma NoSignatureBelow(b: seq<u8>)
    requires |b| == DEVICE_SPECIFIC_INFO_BUFFER_LENGTH && U32At(b, 0) < 0x100
    ensures U64At(b, 0) != DEVICE_SPECIFIC_INFO_SIGNATURE
  {
    SplitLE(b[..8], 4);
    assert b[..8][..4] == b[0..4];
    assert b[..8] == b[0..8];
    Pow256Is(4);
  }

  /**
   * A legacy unpacked record is read with the unpacked layout and
   * reproduces its fields, provided its Size is not 0x14C: the packed
   * layout's bugcheck code sits where the unpacked layout keeps Size.
   */
  lemma UnpackedLegacyReadsBack(x: DeviceSpecificInfo, v: DeviceSpecificInfo)
    requires IsIntelType(x.deviceType) || IsArmType(x.deviceType)
    requires x.bugCheckCode == BUGCHECK_CODE && x.size != BUGCHECK_CODE
    ensures DetectPacking(Image(x, UNPACKED)) == UseUnsignedUnpacked
    ensures DecodeRecord(Image(x, UNPACKED), v) == ReadResult(S_OK, Reread(v, x))
  {
    var b := Image(x, UNPACKED);
    UnpackedReadsBack(x);
    NoSignatureBelow(b);
    DecodeHeldTemplate(b, x, v);
  }

  /** The other side of that proviso: an unpacked record whose Size is 0x14C is taken for a packed one. */
  lemma UnpackedSizeLooksPacked(x: DeviceSpecificInfo)
    requires IsIntelType(x.deviceType) || IsArmType(x.deviceType)
    requires x.size == BUGCHECK_CODE
    ensures DetectPacking(Image(x, UNPACKED)) == UseUnsignedPacked
  {
    var b := Image(x, UNPACKED);
    UnpackedReadsBack(x);
    NoSignatureBelow(b);
  }

  // ------------------------------------------------------------ writing

  /** The struct with its Signature, Version and PayloadSize set to the current ones. */
  function Stamp(x: DeviceSpecificInfo): DeviceSpecificInfo
  {
    x.(signature := DEVICE_SPECIFIC_INFO_SIGNATURE, version := DEVICE_SPECIFIC_INFO_STRUCT_VERSION, payloadSize := PAYLOAD_SIZE)
  }

  /** The buffer with its first 16 bytes overwritten by the three stamped header fields. */
  function StampRecord(b: seq<u8>): (r: seq<u8>)
    requires |b| == DEVICE_SPECIFIC_INFO_BUFFER_LENGTH
    ensures |r| == DEVICE_SPECIFIC_INFO_BUFFER_LENGTH
  {
    EncodeLE(DEVICE_SPECIFIC_INFO_SIGNATURE, 8) + EncodeLE(DEVICE_SPECIFIC_INFO_STRUCT_VERSION, 4)
      + EncodeLE(PAYLOAD_SIZE, 4) + b[16..]
  }

  /** Stamping the fields in the buffer gives the image of the stamped struct. */
  lemma StampedImage(x: DeviceSpecificInfo)
    ensures StampRecord(Image(x, LATEST)) == Image(Stamp(x), LATEST)
  {
    var l := StampRecord(Image(x, LATEST));
    var r := Image(Stamp(x), LATEST);
    forall i | 0 <= i < DEVICE_SPECIFIC_INFO_BUFFER_LENGTH
      ensures l[i] == r[i]
    {
      if i < 8 {
        assert l[i] == EncodeLE(DEVICE_SPECIFIC_INFO_SIGNATURE, 8)[i];
      } else if i < 12 {
        assert l[i] == EncodeLE(DEVICE_SPECIFIC_INFO_STRUCT_VERSION, 4)[i - 8];
      } else if i < 16 {
        assert l[i] == EncodeLE(PAYLOAD_SIZE, 4)[i - 12];
      } else {
        assert l[i] == Image(x, LATEST)[i];
      }
    }
  }

  /** The HRESULT of a write, and the 1024 bytes it handed to DEVICE_IO's Write, if it got that far. */
  datatype WriteResult = WriteResult(hr: HResult, written: Option<seq<u8>>)

  /**
   * WriteDeviceSpecificInfo, given what SetPos and Write return and how
   * many bytes Write reports: the caller's struct is copied into a zeroed
   * buffer, the copy stamped, and its first 1024 bytes written at the
   * offset. The count is compared against the sizeof of the pointer
   * array, which no write of 1024 bytes reaches.
   */
  function WriteDeviceSpecificInfo(context: DeviceSpecificInfo, setPosResult: HResult, writeResult: HResult, bytesProcessed: nat)
    : (r: WriteResult)
    ensures r.written.Some? <==> Succeeded(setPosResult)
    ensures r.written.Some? ==> r.written.value == Image(Stamp(context), LATEST)
    ensures !Succeeded(setPosResult) ==> r.hr == setPosResult
    ensures Succeeded(setPosResult) && bytesProcessed <= DEVICE_SPECIFIC_INFO_BUFFER_LENGTH ==> r.hr == writeResult
  {
    StampedImage(context);
    var record := StampRecord(Image(context, LATEST));
    if !Succeeded(setPosResult) then WriteResult(setPosResult, None)
    else if Succeeded(writeResult) && POINTER_BUFFER_SIZE == bytesProcessed then WriteResult(S_OK, Some(record))
    else WriteResult(writeResult, Some(record))
  }

  /**
   * Round trip: the record a write hands over decodes, with the latest
   * layout, to Reread(v, context) for any caller's struct v.
   */
  lemma WrittenRecordReadsBack(context: DeviceSpecificInfo, v: DeviceSpecificInfo, setPosResult: HResult, writeResult: HResult, n: nat)
    requires IsIntelType(context.deviceType) || IsArmType(context.deviceType)
    requires Succeeded(setPosResult)
    ensures var w := WriteDeviceSpecificInfo(context, setPosResult, writeResult, n);
            && DetectPacking(w.written.value) == UseLatest
            && DecodeRecord(w.written.value, v) == ReadResult(S_OK, Reread(v, context))
  {
    var b := Image(Stamp(context), LATEST);
    LatestReadsBack(Stamp(context));
    DecodeHeldTemplate(b, Stamp(context), v);
  }

  /**
   * The struct comes back whole when the caller's struct already agrees
   * with it on what the read leaves alone: the signed header, and for an
   * Intel type VA, PA and Size.
   */
  lemma RereadRestores(v: DeviceSpecificInfo, x: DeviceSpecificInfo)
    requires v.signature == x.signature && v.version == x.version && v.payloadSize == x.payloadSize
    requires IsIntelType(x.deviceType) ==> v.va == x.va && v.pa == x.pa && v.size == x.size
    ensures Reread(v, x) == x
  {
  }
  // ------------------------------------------------------------ the device read

  /**
   * ReadDeviceSpecificInfo on a DEVICE_IO: it needs the device's last
   * error to be IO_OK, a SetPos to the offset that succeeds and a Read of
   * all 1024 bytes into a zeroed buffer; any shortfall is E_FAIL with the
   * caller's struct untouched. `record` holds the bytes read when all of
   * them were, and the result is then their decoding.
   */
  method ReadDeviceSpecificInfo(hFile: Device, context: DeviceSpecificInfo, offset: u64)
    returns (hr: HResult, result: DeviceSpecificInfo, ghost record: Option<seq<u8>>)
    requires hFile.Valid()
    modifies hFile`lastError, hFile`cacheCurBlock, hFile`cacheBlockCount, hFile`cacheSize, hFile`cache,
             hFile`cacheCurOffset, hFile`ioCurBlock, hFile`ioCurPos, hFile`osPos, hFile`disk, hFile.cache
    ensures hFile.Valid() && hFile.disk == old(hFile.disk)
    ensures record.None? ==> hr == E_FAIL && result == context
    ensures record.Some? ==> |record.value| == DEVICE_SPECIFIC_INFO_BUFFER_LENGTH
                             && ReadResult(hr, result) == DecodeRecord(record.value, context)
    ensures old(hFile.lastError) != IO_OK ==> record.None? && hFile.State() == old(hFile.State())
    ensures record.Some? && hFile.deviceType == PLAIN_FILE_DEVICE_TYPE ==>
              DEVICE_SPECIFIC_INFO_BUFFER_LENGTH <= hFile.osPos <= |hFile.disk|
              && record.value == hFile.disk[hFile.osPos - DEVICE_SPECIFIC_INFO_BUFFER_LENGTH..hFile.osPos]
    ensures record.Some? && IsBlockDevice(hFile.deviceType) ==>
              hFile.ioCurPos as int == offset as int + DEVICE_SPECIFIC_INFO_BUFFER_LENGTH
    ensures record.Some? && hFile.deviceType == PLAIN_FILE_DEVICE_TYPE && offset < old(hFile.ioSize) && offset as int < LARGE_INTEGER_LIMIT ==>
              hFile.osPos == offset as int + DEVICE_SPECIFIC_INFO_BUFFER_LENGTH
  {
    hr, result, record := E_FAIL, context, None;
    if hFile.lastError == IO_OK {
      var buffer, ok := ReadRecordAt(hFile, offset);
      if ok {
        var r := DecodeRecord(buffer[..], context);
        hr, result, record := r.hr, r.context, Some(buffer[..]);
      }
    }
  }

  /** SetPos to the offset, then a Read of the whole 1024-byte buffer; `ok` when both succeed and every byte came in. */
  method ReadRecordAt(hFile: Device, offset: u64) returns (buffer: array<u8>, ok: bool)
    requires hFile.Valid()
    modifies hFile`lastError, hFile`cacheCurBlock, hFile`cacheBlockCount, hFile`cacheSize, hFile`cache,
             hFile`cacheCurOffset, hFile`ioCurBlock, hFile`ioCurPos, hFile`osPos, hFile`disk, hFile.cache
    ensures hFile.Valid() && hFile.disk == old(hFile.disk)
    ensures buffer.Length == DEVICE_SPECIFIC_INFO_BUFFER_LENGTH
    ensures ok && hFile.deviceType == PLAIN_FILE_DEVICE_TYPE ==>
              DEVICE_SPECIFIC_INFO_BUFFER_LENGTH <= hFile.osPos <= |hFile.disk|
              && buffer[..] == hFile.disk[hFile.osPos - DEVICE_SPECIFIC_INFO_BUFFER_LENGTH..hFile.osPos]
    ensures ok && IsBlockDevice(hFile.deviceType) ==>
              hFile.ioCurPos as int == offset as int + DEVICE_SPECIFIC_INFO_BUFFER_LENGTH
    ensures ok && hFile.deviceType == PLAIN_FILE_DEVICE_TYPE && offset < old(hFile.ioSize) && offset as int < LARGE_INTEGER_LIMIT ==>
              hFile.osPos == offset as int + DEVICE_SPECIFIC_INFO_BUFFER_LENGTH
  {
    buffer := new u8[DEVICE_SPECIFIC_INFO_BUFFER_LENGTH](_ => 0);
    ok := false;
    var placed := SeekRecord(hFile, offset);
    if placed {
      ok := ReadWhole(hFile, buffer);
    }
  }

  /** SetPos to the offset; `placed` when it succeeds, the position then being the offset. */
  method SeekRecord(hFile: Device, offset: u64) returns (placed: bool)
    requires hFile.Valid()
    modifies hFile`lastError, hFile`ioCurPos, hFile`osPos
    ensures hFile.Valid()
    ensures placed && IsBlockDevice(hFile.deviceType) ==> hFile.ioCurPos == offset
    ensures placed && hFile.deviceType == PLAIN_FILE_DEVICE_TYPE && offset < old(hFile.ioSize) && offset as int < LARGE_INTEGER_LIMIT ==>
              hFile.osPos == offset as int
  {
    ghost var s0 := hFile.State();
    var ret := hFile.SetIoPosition(offset);
    placed := Succeeded(ret);
    if placed && hFile.deviceType == PLAIN_FILE_DEVICE_TYPE && offset < s0.ioSize && offset as int < LARGE_INTEGER_LIMIT {
      SeekTargetExact(offset, s0.osPos as u64, s0.ioSize, |s0.disk|);
    }
  }

  /** Read of the whole buffer at the current position, with the byte count checked. */
  method ReadWhole(hFile: Device, buffer: array<u8>) returns (ok: bool)
    requires hFile.Valid() && buffer.Length == DEVICE_SPECIFIC_INFO_BUFFER_LENGTH && buffer != hFile.cache
    modifies hFile`lastError, hFile`cacheCurBlock, hFile`cacheBlockCount, hFile`cacheSize, hFile`cache,
             hFile`cacheCurOffset, hFile`ioCurBlock, hFile`ioCurPos, hFile`osPos, hFile`disk, hFile.cache, buffer
    ensures hFile.Valid() && hFile.disk == old(hFile.disk)
    ensures ok && hFile.deviceType == PLAIN_FILE_DEVICE_TYPE ==>
              old(hFile.osPos) + DEVICE_SPECIFIC_INFO_BUFFER_LENGTH == hFile.osPos <= |hFile.disk|
              && buffer[..] == hFile.disk[old(hFile.osPos)..hFile.osPos]
    ensures ok && IsBlockDevice(hFile.deviceType) ==>
              hFile.ioCurPos as int == old(hFile.ioCurPos) as int + DEVICE_SPECIFIC_INFO_BUFFER_LENGTH
  {
    var ret, bytesProcessed := hFile.Read(buffer, 0, DEVICE_SPECIFIC_INFO_BUFFER_LENGTH as u64);
    ok := Succeeded(ret) && bytesProcessed as int == DEVICE_SPECIFIC_INFO_BUFFER_LENGTH;
    if ok && hFile.deviceType == PLAIN_FILE_DEVICE_TYPE {
      assert buffer[..] == buffer[0..DEVICE_SPECIFIC_INFO_BUFFER_LENGTH];
    }
  }
}
