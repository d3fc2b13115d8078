// raw2dump's best-effort ("fake") dump header: when no usable Windows dump
// header was found, the bug check parameters of DUMP_HEADER32 are rewritten
// to say so (WriteFakeDumpHeader, raw2dump/src/dumputil.cpp).
module Raw2DumpFakeHeader {
  import opened Machine
  import opened Status
  import opened Raw2DumpUtil

  /** The bug check fields of DUMP_HEADER32; each is a ULONG. */
  datatype DumpHeader32 = DumpHeader32(bugCheckCode: u32, param1: u32, param2: u32, param3: u32, param4: u32)

  /** BugCheckParameter1 of a best-effort header. */
  const FAKE_PARAM1: u32 := 0xFFFF
  /** FAKE_PARAM2_REASON: no AP_REG, or no or an invalid DUMP_HEADER. */
  const FAKE_PARAM2_NO_AP_REG: u32 := 0
  const FAKE_PARAM2_INVALID_DUMP_HEADER: u32 := 1

  /** The statuses for which a best-effort header is written. */
  predicate NeedsFakeHeader(s: DumpHeaderStatus)
  {
    s == DHS_NO_SVINFO || s == DHS_NOT_FOUND || s == DHS_INVALID
  }

  /**
   * The low byte of each attempted parameter, in bytes 0, 1 and 2 of a
   * ULONG: `& 0xFF` is the remainder by 256, a shift by 8 or 16 a product,
   * and the or of the three disjoint byte lanes their sum.
   */
  function FoldedParam3(p1: u64, p2: u64, p3: u64): (r: u32)
    ensures r < 0x100_0000
  {
    p1 % 0x100 + (p2 % 0x100) * 0x100 + (p3 % 0x100) * 0x1_0000
  }

  /** The header after the rewrite, for a status that needs one. */
  function FakeHeader(ctx: DmpContext, h: DumpHeader32): DumpHeader32
  {
    h.(param1 := FAKE_PARAM1,
       param2 := if ctx.dumpHeaderStatus == DHS_NO_SVINFO then FAKE_PARAM2_NO_AP_REG else FAKE_PARAM2_INVALID_DUMP_HEADER,
       param3 := FoldedParam3(ctx.bugCheckParam1, ctx.bugCheckParam2, ctx.bugCheckParam3),
       param4 := Trunc32(ctx.inMemDataVA))
  }

  /**
   * WriteFakeDumpHeader. For DHS_UNKNOWN and DHS_VALID it returns S_OK and
   * changes nothing; otherwise it rewrites the four parameters of the
   * context's DUMP_HEADER32 and writes the header at offset 0 of the
   * Windows dump, returning HRESULT_FROM_NT of the write's status
   * (`writeStatus`, an input). `written` is the header handed to the write.
   */
  method WriteFakeDumpHeader(ctx: DmpContext, h: DumpHeader32, writeStatus: NtStatus)
    returns (hr: HResult, h': DumpHeader32, written: Option<DumpHeader32>)
    ensures !NeedsFakeHeader(ctx.dumpHeaderStatus) ==> hr == S_OK && h' == h && written == None
    ensures NeedsFakeHeader(ctx.dumpHeaderStatus) ==>
              hr == FromNt(writeStatus) && h' == FakeHeader(ctx, h) && written == Some(h')
  {
    if !NeedsFakeHeader(ctx.dumpHeaderStatus) {
      return S_OK, h, None;
    }
    h' := h.(param1 := FAKE_PARAM1);
    if ctx.dumpHeaderStatus == DHS_NO_SVINFO {
      h' := h'.(param2 := FAKE_PARAM2_NO_AP_REG);
    } else {
      h' := h'.(param2 := FAKE_PARAM2_INVALID_DUMP_HEADER);
    }
    h' := h'.(param3 := 0);
    h' := h'.(param3 := ctx.bugCheckParam1 % 0x100);
    h' := h'.(param3 := h'.param3 + (ctx.bugCheckParam2 % 0x100) * 0x100);
    h' := h'.(param3 := h'.param3 + (ctx.bugCheckParam3 % 0x100) * 0x1_0000);
    h' := h'.(param4 := Trunc32(ctx.inMemDataVA));
    written := Some(h');
    hr := FromNt(writeStatus);
  }

  /** The three attempted parameters' low bytes can be read back out of BugCheckParameter3. */
  lemma UnfoldParam3(p1: u64, p2: u64, p3: u64)
    ensures var r := FoldedParam3(p1, p2, p3);
            r % 0x100 == p1 % 0x100 && (r / 0x100) % 0x100 == p2 % 0x100 && r / 0x1_0000 == p3 % 0x100
  {
    var a, b, c := p1 % 0x100, p2 % 0x100, p3 % 0x100;
    var r := a + b * 0x100 + c * 0x1_0000;
    assert r == (b + c * 0x100) * 0x100 + a;
    assert r / 0x100 == b + c * 0x100;
    assert r == c * 0x1_0000 + (a + b * 0x100);
  }

  /**
   * A best-effort header is told apart from a real one by BugCheckParameter1,
   * says in BugCheckParameter2 whether AP_REG or the dump header was missing,
   * and leaves the bug check code as it was.
   */
  lemma FakeHeaderMeaning(ctx: DmpContext, h: DumpHeader32)
    requires NeedsFakeHeader(ctx.dumpHeaderStatus)
    ensures var f := FakeHeader(ctx, h);
            && f.bugCheckCode == h.bugCheckCode && f.param1 == 0xFFFF
            && (f.param2 == 0 <==> ctx.dumpHeaderStatus == DHS_NO_SVINFO)
            && (f.param2 == 1 <==> ctx.dumpHeaderStatus != DHS_NO_SVINFO)
            && (ctx.inMemDataVA < U32_LIMIT ==> f.param4 as int == ctx.inMemDataVA)
  {
  }
}
