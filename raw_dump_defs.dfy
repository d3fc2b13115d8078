// Datatypes and constants of the raw dump format: the file header, the
// section table entries, their flags and types (common/include/RawDumpDefs.h,
// OffDmpSvc/wp_port/rawdump.h).
module RawDumpDefs {
  import opened Machine

  const RAW_DUMP_HEADER_SIGNATURE: u64 := 0x2170_6D44_5F77_6152   // "Raw_Dmp!"
  const RAW_DUMP_HEADER_VERSION: u32 := 0x1000
  const RAW_DUMP_SECTION_HEADER_VERSION: u32 := 0x1000

  // Flag words are only ever tested bit by bit, so they are kept as bit-vectors.
  const RAW_DUMP_HEADER_FLAGS_UNKNOWN: bv32 := 0x0
  const RAW_DUMP_HEADER_FLAGS_VALID: bv32 := 0x1
  const RAW_DUMP_HEADER_FLAGS_INSUFFICIENT_STORAGE: bv32 := 0x2
  const RAW_DUMP_HEADER_EXPECTED_BITS: bv32 := 0x3

  const RAW_DUMP_SECTION_TYPE_RESERVED: u32 := 0x0
  const RAW_DUMP_SECTION_TYPE_DDR_RANGE: u32 := 0x1
  const RAW_DUMP_SECTION_TYPE_CPU_CONTEXT: u32 := 0x2
  const RAW_DUMP_SECTION_TYPE_SV_SPECIFIC: u32 := 0x3

  const RAW_DUMP_SECTION_HEADER_NAME_LENGTH: nat := 0x14
  const RAW_DUMP_SV_SPECIFIC_DATA_LENGTH: nat := 0x10

  /** Byte sizes of the packed (pragma pack 1) structures of RawDumpDefs.h. */
  const PACKED_RAW_DUMP_HEADER_SIZE: nat := 56
  const PACKED_RAW_DUMP_SECTION_HEADER_SIZE: nat := 64

  /**
   * sizeof(RAW_DUMP_HEADER) as rawdump.h declares it (also packed to one
   * byte), the header that OffDmpSvc and raw2dump are built with: the 56
   * bytes of header fields followed by a one-entry SectionTable.
   */
  const RAW_DUMP_HEADER_WITH_TABLE_SIZE: nat := PACKED_RAW_DUMP_HEADER_SIZE + PACKED_RAW_DUMP_SECTION_HEADER_SIZE

  /**
   * The 16-byte union `u` of a section entry, held as its two little-endian
   * 64-bit words, so that every reading of it (DDR base, CPU architecture,
   * SV data) sees the same storage, as in C.
   */
  datatype SectionUnion = SectionUnion(low: u64, high: u64)

  type Name20 = s: seq<u8> | |s| == 20 witness seq(20, _ => 0)

  /** RAW_DUMP_HEADER. */
  datatype RawDumpHeader = RawDumpHeader(
    signature: u64,
    version: u32,
    flags: bv32,
    osData: u64,
    cpuContext: u64,
    resetTrigger: u32,
    dumpSize: u64,
    totalDumpSizeRequired: u64,
    sectionsCount: u32)

  /** RAW_DUMP_SECTION_HEADER. */
  datatype SectionHeader = SectionHeader(
    flags: bv32,
    version: u32,
    sectionType: u32,
    offset: u64,
    size: u64,
    u: SectionUnion,
    name: Name20)

  /** Little-endian value of a byte sequence. */
  function LE(s: seq<u8>): (r: nat)
    ensures r < Pow256(|s|)
  {
    if s == [] then 0 else s[0] + 256 * LE(s[1..])
  }

  function Pow256(n: nat): (r: nat)
    ensures r >= 1
  {
    if n == 0 then 1 else 256 * Pow256(n - 1)
  }

  /** The n-byte little-endian encoding of v (the low n bytes). */
  function EncodeLE(v: nat, n: nat): (r: seq<u8>)
    ensures |r| == n
  {
    if n == 0 then [] else [v % 256] + EncodeLE(v / 256, n - 1)
  }

  /** A value that leaves remainder t under m with quotient k has v % m == t. */
  lemma ModUnique(v: int, m: nat, k: int, t: int)
    requires 0 <= t < m && v == m * k + t
    ensures v % m == t && v / m == k
  {
    var q, r := v / m, v % m;
    assert m * (q - k) == t - r by {
      assert m * q + r == m * k + t;
      assert m * (q - k) == m * q - m * k;
    }
    if q > k {
      MulAtLeast(m, q - k);
      assert false;
    }
    if q < k {
      MulAtLeast(m, k - q);
      assert false;
    }
  }

  lemma MulLe(a: nat, x: nat, y: nat)
    requires x <= y
    ensures a * x <= a * y
  {
    assert a * y == a * x + a * (y - x);
  }

  lemma MulAtLeast(m: nat, d: int)
    requires d >= 1
    ensures m * d >= m
  {
    assert m * d == m * (d - 1) + m;
  }

  /** The remainder modulo a * b is the remainder modulo a plus a times the next digit. */
  lemma ModSplit(v: nat, a: nat, b: nat)
    requires a > 0 && b > 0
    ensures v % (a * b) == v % a + a * (v / a % b)
  {
    var q, r := v / a, v % a;
    var hi, lo := q / b, q % b;
    var ab := a * b;
    assert v == a * q + r;
    assert q == b * hi + lo;
    assert a * q == ab * hi + a * lo by {
      calc {
        a * q;
        a * (b * hi + lo);
        a * (b * hi) + a * lo;
        ab * hi + a * lo;
      }
    }
    assert a * lo + r < ab by {
      MulLe(a, lo, b - 1);
      assert a * (b - 1) == ab - a;
    }
    ModUnique(v, ab, hi, a * lo + r);
  }

  /** Decoding the n-byte encoding of v gives back v modulo 256^n: the bytes above the n-th are lost. */
  lemma {:induction false} EncodeDecodeLE(v: nat, n: nat)
    ensures LE(EncodeLE(v, n)) == v % Pow256(n)
  {
    if n > 0 {
      EncodeDecodeLE(v / 256, n - 1);
      assert EncodeLE(v, n)[1..] == EncodeLE(v / 256, n - 1);
      ModSplit(v, 256, Pow256(n - 1));
    }
  }

  lemma {:induction false} DecodeEncodeLE(s: seq<u8>)
    ensures EncodeLE(LE(s), |s|) == s
  {
    if s != [] {
      DecodeEncodeLE(s[1..]);
      assert (s[0] + 256 * LE(s[1..])) / 256 == LE(s[1..]);
    }
  }

  /** u.DDRInformation.Base: the union's first eight bytes. */
  function DdrBase(s: SectionHeader): u64
  {
    s.u.low
  }

  /** u.CPUContextInformation.Architecture: the union's first two bytes. */
  function CpuArchitecture(s: SectionHeader): u16
  {
    s.u.low % U16_LIMIT
  }

  /** u.SVSpecificInformation.SVSpecificData: all sixteen bytes of the union. */
  function SvSpecificData(s: SectionHeader): (r: seq<u8>)
    ensures |r| == RAW_DUMP_SV_SPECIFIC_DATA_LENGTH
  {
    EncodeLE(s.u.low, 8) + EncodeLE(s.u.high, 8)
  }

  /** The low sixteen bits of a word are its first byte and 256 times its second. */
  lemma LowTwoBytes(v: u64)
    ensures v % U16_LIMIT == v % 256 + 256 * (v / 256 % 256)
  {
    ModSplit(v, 256, 256);
  }

  /** The architecture is the little-endian value of the union's first two bytes. */
  lemma CpuArchitectureIsFirstTwoBytes(s: SectionHeader)
    ensures CpuArchitecture(s) == LE(SvSpecificData(s)[..2])
  {
    var v := s.u.low;
    var e := EncodeLE(v, 8);
    assert SvSpecificData(s)[..2] == e[..2];
    assert e[0] == v % 256;
    assert e[1..] == EncodeLE(v / 256, 7);
    assert e[1] == v / 256 % 256;
    assert LE(e[..2]) == e[0] as int + 256 * (e[1] as int) by {
      assert e[..2][1..] == [e[1]];
      assert [e[1]][1..] == [];
    }
    LowTwoBytes(v);
  }

  lemma Pow256Is(n: nat)
    ensures n == 2 ==> Pow256(n) == U16_LIMIT
    ensures n == 4 ==> Pow256(n) == U32_LIMIT
    ensures n == 8 ==> Pow256(n) == U64_LIMIT
  {
    assert Pow256(2) == 0x1_0000;
  }

  /** A ULONG read from the buffer at off. */
  function U32At(b: seq<u8>, off: nat): u32
    requires off + 4 <= |b|
  {
    Pow256Is(4);
    LE(b[off..off + 4])
  }

  /** A ULONGLONG read from the buffer at off. */
  function U64At(b: seq<u8>, off: nat): u64
    requires off + 8 <= |b|
  {
    Pow256Is(8);
    LE(b[off..off + 8])
  }

  /** Little-endian values split at byte k: the low k bytes, then the rest scaled by 256^k. */
  lemma {:induction false} SplitLE(s: seq<u8>, k: nat)
    requires k <= |s|
    ensures LE(s) == LE(s[..k]) + Pow256(k) * LE(s[k..])
  {
    if k > 0 {
      SplitLE(s[1..], k - 1);
      assert s[1..][..k - 1] == s[..k][1..];
      assert s[1..][k - 1..] == s[k..];
      var lo, hi := LE(s[..k][1..]), LE(s[k..]);
      calc {
        LE(s);
        s[0] + 256 * (lo + Pow256(k - 1) * hi);
        { ScaleSum(lo, Pow256(k - 1), hi); }
        (s[..k][0] + 256 * lo) + Pow256(k) * hi;
      }
    }
  }

  lemma ScaleSum(a: int, b: int, c: int)
    ensures 256 * (a + b * c) == 256 * a + (256 * b) * c
  {
    calc {
      256 * (a + b * c);
      256 * a + 256 * (b * c);
      256 * a + (256 * b) * c;
    }
  }

  /** Flags has VALID or INSUFFICIENT_STORAGE set. */
  predicate HasExpectedBits(flags: bv32)
  {
    flags & RAW_DUMP_HEADER_EXPECTED_BITS != 0
  }

  /** Flags has INSUFFICIENT_STORAGE set. */
  predicate HasInsufficientStorage(flags: bv32)
  {
    flags & RAW_DUMP_HEADER_FLAGS_INSUFFICIENT_STORAGE == RAW_DUMP_HEADER_FLAGS_INSUFFICIENT_STORAGE
  }

  /** Number of entries of `table` whose type is `t`. */
  function CountType(table: seq<SectionHeader>, t: u32): (r: nat)
    ensures r <= |table|
  {
    if table == [] then 0
    else CountType(table[..|table| - 1], t) + (if table[|table| - 1].sectionType == t then 1 else 0)
  }

  /** Sum of the Size fields of the entries of type `t`, modulo 2^64. */
  function SumSizeOfType(table: seq<SectionHeader>, t: u32): u64
  {
    if table == [] then 0
    else
      var rest := SumSizeOfType(table[..|table| - 1], t);
      if table[|table| - 1].sectionType == t then Add64(rest, table[|table| - 1].size) else rest
  }

  /** Largest Size over the entries of type `t` (0 if none). */
  function MaxSizeOfType(table: seq<SectionHeader>, t: u32): u64
  {
    if table == [] then 0
    else
      var rest := MaxSizeOfType(table[..|table| - 1], t);
      if table[|table| - 1].sectionType == t && rest < table[|table| - 1].size then table[|table| - 1].size else rest
  }

  /** Index of the first entry of type `t`, if any. */
  function FirstOfType(table: seq<SectionHeader>, t: u32): (r: Option<nat>)
    ensures r.Some? ==> r.value < |table| && table[r.value].sectionType == t
    ensures r.Some? ==> forall j :: 0 <= j < r.value ==> table[j].sectionType != t
    ensures r.None? ==> forall j :: 0 <= j < |table| ==> table[j].sectionType != t
  {
    if table == [] then None
    else if table[0].sectionType == t then Some(0)
    else match FirstOfType(table[1..], t)
      case None => None
      case Some(k) => Some(k + 1)
  }

  /** A section type the scanners recognise. */
  predicate IsKnownType(t: u32)
  {
    t == RAW_DUMP_SECTION_TYPE_DDR_RANGE || t == RAW_DUMP_SECTION_TYPE_CPU_CONTEXT
    || t == RAW_DUMP_SECTION_TYPE_SV_SPECIFIC
  }

  lemma {:induction false} FirstOfTypeExtend(p: seq<SectionHeader>, x: SectionHeader, t: u32)
    ensures FirstOfType(p + [x], t) ==
      (if FirstOfType(p, t).Some? then FirstOfType(p, t)
       else if x.sectionType == t then Some(|p|) else None)
  {
    if p != [] {
      FirstOfTypeExtend(p[1..], x, t);
      assert (p + [x])[1..] == p[1..] + [x];
    }
  }

  /** There is a first entry of type t exactly when the count of that type is nonzero. */
  lemma {:induction false} FirstOfTypeIffCount(p: seq<SectionHeader>, t: u32)
    ensures FirstOfType(p, t).None? <==> CountType(p, t) == 0
  {
    if p != [] {
      var q := p[..|p| - 1];
      FirstOfTypeIffCount(q, t);
      FirstOfTypeExtend(q, p[|p| - 1], t);
      assert q + [p[|p| - 1]] == p;
    }
  }

  /** How each tallied quantity of type ty changes when the prefix grows by entry k. */
  lemma PrefixStep(t: seq<SectionHeader>, k: nat, ty: u32)
    requires k < |t|
    ensures CountType(t[..k + 1], ty) == CountType(t[..k], ty) + (if t[k].sectionType == ty then 1 else 0)
    ensures SumSizeOfType(t[..k + 1], ty) ==
              (if t[k].sectionType == ty then Add64(SumSizeOfType(t[..k], ty), t[k].size) else SumSizeOfType(t[..k], ty))
    ensures MaxSizeOfType(t[..k + 1], ty) ==
              (if t[k].sectionType == ty && MaxSizeOfType(t[..k], ty) < t[k].size then t[k].size else MaxSizeOfType(t[..k], ty))
    ensures FirstOfType(t[..k + 1], ty) ==
              (if CountType(t[..k], ty) != 0 then FirstOfType(t[..k], ty)
               else if t[k].sectionType == ty then Some(k) else None)
  {
    assert t[..k + 1] == t[..k] + [t[k]];
    assert t[..k + 1][..k] == t[..k];
    FirstOfTypeExtend(t[..k], t[k], ty);
    FirstOfTypeIffCount(t[..k], ty);
  }

  /** Scanning an entry of another type leaves the count, sum, maximum and first index of type ty as they were. */
  lemma PrefixStepOther(t: seq<SectionHeader>, k: nat, ty: u32)
    requires k < |t| && t[k].sectionType != ty
    ensures CountType(t[..k + 1], ty) == CountType(t[..k], ty)
    ensures SumSizeOfType(t[..k + 1], ty) == SumSizeOfType(t[..k], ty)
    ensures MaxSizeOfType(t[..k + 1], ty) == MaxSizeOfType(t[..k], ty)
    ensures FirstOfType(t[..k + 1], ty) == FirstOfType(t[..k], ty)
  {
    PrefixStep(t, k, ty);
    FirstOfTypeIffCount(t[..k], ty);
  }

  /** Index of the first entry whose type is not `t`, if any. */
  function FirstNotOfType(table: seq<SectionHeader>, t: u32): (r: Option<nat>)
    ensures r.Some? ==> r.value < |table| && table[r.value].sectionType != t
    ensures r.Some? ==> forall j :: 0 <= j < r.value ==> table[j].sectionType == t
    ensures r.None? ==> forall j :: 0 <= j < |table| ==> table[j].sectionType == t
  {
    if table == [] then None
    else if table[0].sectionType != t then Some(0)
    else match FirstNotOfType(table[1..], t)
      case None => None
      case Some(k) => Some(k + 1)
  }

  /** DDRSections after a scan: the first DDR entry, else unchanged. */
  function FirstDdrOr(table: seq<SectionHeader>, prior: nat): (r: nat)
    ensures r == prior || r < |table|
  {
    match FirstOfType(table, RAW_DUMP_SECTION_TYPE_DDR_RANGE)
    case Some(i) => i
    case None => prior
  }

  /** The DDR entries of a scanned table lie inside it: DDRSections + DDRSectionCount <= SectionsCount. */
  lemma {:induction false} DdrSectionsInTable(t: seq<SectionHeader>, prior: nat)
    requires CountType(t, RAW_DUMP_SECTION_TYPE_DDR_RANGE) != 0
    ensures FirstDdrOr(t, prior) + CountType(t, RAW_DUMP_SECTION_TYPE_DDR_RANGE) <= |t|
  {
    var q := t[..|t| - 1];
    assert q + [t[|t| - 1]] == t;
    FirstOfTypeExtend(q, t[|t| - 1], RAW_DUMP_SECTION_TYPE_DDR_RANGE);
    FirstOfTypeIffCount(q, RAW_DUMP_SECTION_TYPE_DDR_RANGE);
    if CountType(q, RAW_DUMP_SECTION_TYPE_DDR_RANGE) != 0 {
      DdrSectionsInTable(q, prior);
    }
  }
}
