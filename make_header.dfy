// The raw dump generator's file header (tools/makeRawDump/makeHeader.cpp):
// the payload size of each section list and the header fields derived
// from the configuration.
module MakeHeader {
  import opened Machine
  import opened Status
  import opened RawDumpDefs
  import opened MakeDumpDefs
  import DumpHeader

  /** Accumulating modulo 2^64 onto a reduced total is reducing the whole sum. */
  lemma AddReduced(x: nat, y: u64)
    ensures Add64(x % U64_LIMIT, y) == (x + y) % U64_LIMIT
  {
    var q := x / U64_LIMIT;
    assert x == q * U64_LIMIT + x % U64_LIMIT;
  }

  /**
   * GetSectionSize. The total of the Size fields of the list modulo 2^64;
   * a null slot gives E_FAIL with the total reset to 0. (The list and the
   * total are never null here, so the E_INVALIDARG case does not arise.)
   */
  method GetSectionSize(list: SectionList) returns (hr: HResult, sizeTotal: u64)
    ensures hr == S_OK <==> AllPresent(list)
    ensures hr != S_OK ==> hr == E_FAIL && sizeTotal == 0
    ensures hr == S_OK ==> sizeTotal == SumSizes(Present(list)) % U64_LIMIT
  {
    hr := S_OK;
    sizeTotal := 0;
    var i := 0;
    while i < |list|
      invariant 0 <= i <= |list| && AllPresent(list[..i])
      invariant sizeTotal == SumSizes(Present(list[..i])) % U64_LIMIT
    {
      if list[i].None? {
        hr := E_FAIL;
        sizeTotal := 0;
        return;
      }
      assert Present(list[..i + 1])[..i] == Present(list[..i]);
      AddReduced(SumSizes(Present(list[..i])), list[i].value.size);
      sizeTotal := Add64(sizeTotal, list[i].value.size);
      i := i + 1;
    }
    assert list[..i] == list;
  }

  /** INVALIDATE_VALUE on each header constant: its bitwise complement at the field's width. */
  const BAD_SIGNATURE: u64 := U64_MAX - RAW_DUMP_HEADER_SIGNATURE
  const BAD_VERSION: u32 := U32_MAX - RAW_DUMP_HEADER_VERSION
  const BAD_FLAGS: bv32 := !RAW_DUMP_HEADER_FLAGS_VALID

  /**
   * The header PopulateRawDumpFileHeader writes once the three payload
   * sizes are known: the constants or their complements, zero OsData,
   * CpuContext and ResetTrigger, and DumpSize = file header + section table
   * + payloads, in 64-bit arithmetic. SectionsCount is the one the section
   * table was built with.
   */
  function GeneratedHeader(cfg: Config, ddr: u64, cpu: u64, sv: u64): (h: RawDumpHeader)
    ensures h.dumpSize == (PACKED_RAW_DUMP_HEADER_SIZE + SectionTableSize(cfg.dumpFileHeader.sectionsCount) + ddr + cpu + sv) % U64_LIMIT
    ensures h.totalDumpSizeRequired == h.dumpSize && h.sectionsCount == cfg.dumpFileHeader.sectionsCount
    ensures cfg.badHeaderSignature <==> h.signature != RAW_DUMP_HEADER_SIGNATURE
    ensures cfg.badHeaderSignature ==> h.signature + RAW_DUMP_HEADER_SIGNATURE == U64_MAX
    ensures cfg.badHeaderVersion <==> h.version != RAW_DUMP_HEADER_VERSION
    ensures cfg.badHeaderVersion ==> h.version + RAW_DUMP_HEADER_VERSION == U32_MAX
    ensures cfg.badHeaderFlags <==> h.flags != RAW_DUMP_HEADER_FLAGS_VALID
    ensures cfg.badHeaderFlags ==> h.flags == !RAW_DUMP_HEADER_FLAGS_VALID
    ensures h.osData == 0 && h.cpuContext == 0 && h.resetTrigger == 0
  {
    var dumpSize := Add64(Add64(PACKED_RAW_DUMP_HEADER_SIZE, SectionTableSize(cfg.dumpFileHeader.sectionsCount)),
                          Add64(Add64(ddr, cpu), sv));
    assert dumpSize == (PACKED_RAW_DUMP_HEADER_SIZE + SectionTableSize(cfg.dumpFileHeader.sectionsCount) + ddr + cpu + sv) % U64_LIMIT by {
      AddReduced(ddr + cpu, sv);
      AddReduced(PACKED_RAW_DUMP_HEADER_SIZE + SectionTableSize(cfg.dumpFileHeader.sectionsCount), Add64(Add64(ddr, cpu), sv));
      var t := PACKED_RAW_DUMP_HEADER_SIZE + SectionTableSize(cfg.dumpFileHeader.sectionsCount);
      var p := ddr + cpu + sv;
      var q := p / U64_LIMIT;
      assert p == q * U64_LIMIT + p % U64_LIMIT;
      assert (t + p % U64_LIMIT) % U64_LIMIT == (t + p) % U64_LIMIT;
    }
    RawDumpHeader(
      if cfg.badHeaderSignature then BAD_SIGNATURE else RAW_DUMP_HEADER_SIGNATURE,
      if cfg.badHeaderVersion then BAD_VERSION else RAW_DUMP_HEADER_VERSION,
      if cfg.badHeaderFlags then BAD_FLAGS else RAW_DUMP_HEADER_FLAGS_VALID,
      0, 0, 0, dumpSize, dumpSize, cfg.dumpFileHeader.sectionsCount)
  }

  /**
   * PopulateRawDumpFileHeader. The three sizes are taken in the order DDR,
   * CPU, SV and the first failure stops the others (each computed size is
   * stored, 0 for the failing one); any failure gives E_FAIL and leaves the
   * header as it was.
   */
  method PopulateRawDumpFileHeader(cfg: Config) returns (hr: HResult, cfg': Config)
    ensures hr == S_OK <==> AllPresent(cfg.sectionDDR) && AllPresent(cfg.sectionCPU) && AllPresent(cfg.sectionSV)
    ensures hr != S_OK ==> hr == E_FAIL && cfg'.dumpFileHeader == cfg.dumpFileHeader
    ensures !AllPresent(cfg.sectionDDR) ==> cfg' == cfg.(ddrPayloadSize := 0)
    ensures hr == S_OK ==>
              var ddr := SumSizes(Present(cfg.sectionDDR)) % U64_LIMIT;
              var cpu := SumSizes(Present(cfg.sectionCPU)) % U64_LIMIT;
              var sv := SumSizes(Present(cfg.sectionSV)) % U64_LIMIT;
              cfg' == cfg.(ddrPayloadSize := ddr, cpuPayloadSize := cpu, svPayloadSize := sv,
                           dumpFileHeader := GeneratedHeader(cfg, ddr, cpu, sv))
  {
    var hrDdr, ddr := GetSectionSize(cfg.sectionDDR);
    cfg' := cfg.(ddrPayloadSize := ddr);
    if !Succeeded(hrDdr) {
      return E_FAIL, cfg';
    }
    var hrCpu, cpu := GetSectionSize(cfg.sectionCPU);
    cfg' := cfg'.(cpuPayloadSize := cpu);
    if !Succeeded(hrCpu) {
      return E_FAIL, cfg';
    }
    var hrSv, sv := GetSectionSize(cfg.sectionSV);
    cfg' := cfg'.(svPayloadSize := sv);
    if !Succeeded(hrSv) {
      return E_FAIL, cfg';
    }
    hr := S_OK;
    cfg' := cfg'.(dumpFileHeader := GeneratedHeader(cfg, ddr, cpu, sv));
  }

  /**
   * What the shared header validator makes of a generated header with a
   * nonzero size and section count: badHeaderSignature and badHeaderVersion
   * each produce the error of their check (the signature is checked
   * first), while the complemented Flags still carry an expected bit
   * (INSUFFICIENT_STORAGE), so badHeaderFlags alone is accepted.
   */
  lemma GeneratedHeaderVerdict(cfg: Config, ddr: u64, cpu: u64, sv: u64)
    requires GeneratedHeader(cfg, ddr, cpu, sv).dumpSize != 0 && cfg.dumpFileHeader.sectionsCount != 0
    ensures DumpHeader.IsValidRawDumpHeader(Some(GeneratedHeader(cfg, ddr, cpu, sv))).1 ==
              if cfg.badHeaderSignature then DumpHeader.RAW_DUMP_HEADER_SIGNATURE_INVALID
              else if cfg.badHeaderVersion then DumpHeader.RAW_DUMP_HEADER_VERSION_INVALID
              else DumpHeader.RAW_DUMP_OK
  {
    assert HasExpectedBits(BAD_FLAGS) && HasExpectedBits(RAW_DUMP_HEADER_FLAGS_VALID);
  }
}
