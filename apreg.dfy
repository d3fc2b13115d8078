// The legacy AP_REG block of raw2dump (raw2dump/src/apreg.cpp): the checks
// on its header, the size of the block that follows, and the mapping of the
// secure monitor's saved CPU registers to an NT ARM CONTEXT.
module ApReg {
  import opened Machine
  import opened Status
  import opened RawDumpDefs
  import opened Raw2DumpUtil
  import opened Raw2DumpReader

  const AP_REG_STRUCTURE_MAGIC_VALUE: u32 := 0x4443_4151
  const AP_REG_STRUCTURE_V2: u32 := 2
  const AP_REG_STRUCTURE_V3: u32 := 3
  const AP_REG_STRUCTURE_V4: u32 := 4
  const AP_REG_MAX_CPUS: u32 := 4

  /** sizeof AP_REG_B_FAMILY_HEADER, SECURE_CPU_CONTEXT, CPU_STATUS, NON_SECURE_CPU_CONTEXT and WDOG_STATUS (pack 1). */
  const AP_REG_HEADER_SIZE: u32 := 12
  const SECURE_CPU_CONTEXT_SIZE: u32 := 148
  const CPU_STATUS_SIZE: u32 := 4
  const NON_SECURE_CPU_CONTEXT_SIZE: u32 := 156
  const WDOG_STATUS_SIZE: u32 := 4

  // ------------------------------------------------------------ header

  /** AP_REG_B_FAMILY_HEADER: three ULONGs at offsets 0, 4 and 8. */
  datatype ApRegHeader = ApRegHeader(magic: u32, version: u32, cpuCount: u32)

  function DecodeApRegHeader(b: seq<u8>): ApRegHeader
    requires |b| >= AP_REG_HEADER_SIZE as nat
  {
    ApRegHeader(U32At(b, 0), U32At(b, 4), U32At(b, 8))
  }

  /** The region is valid when the magic matches, the version is 2, 3 or 4 and there are one to four CPUs. */
  predicate ValidApRegHeader(h: ApRegHeader)
  {
    h.magic == AP_REG_STRUCTURE_MAGIC_VALUE
    && (h.version == AP_REG_STRUCTURE_V2 || h.version == AP_REG_STRUCTURE_V3 || h.version == AP_REG_STRUCTURE_V4)
    && 1 <= h.cpuCount <= AP_REG_MAX_CPUS
  }

  /** The three checks of GetAPRegLegacy in the order it makes them; each failure is STATUS_BAD_DATA. */
  function CheckApRegHeader(h: ApRegHeader): (s: NtStatus)
    ensures s == STATUS_SUCCESS <==> ValidApRegHeader(h)
    ensures s != STATUS_SUCCESS ==> s == STATUS_BAD_DATA
  {
    if h.magic != AP_REG_STRUCTURE_MAGIC_VALUE then STATUS_BAD_DATA
    else if h.version != AP_REG_STRUCTURE_V2 && h.version != AP_REG_STRUCTURE_V3 && h.version != AP_REG_STRUCTURE_V4
    then STATUS_BAD_DATA
    else if h.cpuCount == 0 || h.cpuCount > AP_REG_MAX_CPUS then STATUS_BAD_DATA
    else STATUS_SUCCESS
  }

  /**
   * The UINT32 size of the whole block: the header, one secure context, and
   * per CPU a status word, a non-secure context and a watchdog status.
   */
  function ApRegDataSize(cpuCount: u32): (n: u32)
    ensures cpuCount <= AP_REG_MAX_CPUS ==> n as int == 160 + 164 * cpuCount as int <= 816
  {
    Trunc32(AP_REG_HEADER_SIZE as int + SECURE_CPU_CONTEXT_SIZE as int
            + cpuCount as int * (CPU_STATUS_SIZE + NON_SECURE_CPU_CONTEXT_SIZE + WDOG_STATUS_SIZE) as int)
  }

  /**
   * GetAPRegLegacy. A zero AP_REG address is STATUS_UNSUCCESSFUL; a failed
   * read of the header returns the read's status; a header failing
   * CheckApRegHeader is STATUS_BAD_DATA; a failed allocation is
   * STATUS_NO_MEMORY; then the whole block is read again into the zeroed
   * allocation. On success TotalCpuContextSizeInBytes is the block size; on
   * any failure DumpHeaderStatus becomes DHS_NO_SVINFO and nothing else
   * changes. `heapOk` is the outcome of HeapAlloc; `apReg` is the buffer left
   * in Context->ApReg.
   */
  method GetAPRegLegacy(ctx: DmpContext, apRegAddress: u64, rawFile: seq<u8>, heapOk: bool)
    returns (hr: HResult, ctx': DmpContext, apReg: Option<seq<u8>>)
    requires ctx.ddrMemoryMapCount as nat <= |ctx.ddrMemoryMap|
    ensures hr.FromNt?
    ensures var hdr := DdrRead(ctx, rawFile, apRegAddress, AP_REG_HEADER_SIZE);
            var h := DecodeApRegHeader(hdr.1);
            var block := DdrRead(ctx, rawFile, apRegAddress, ApRegDataSize(h.cpuCount));
            && (apRegAddress == 0 ==> hr.nt == STATUS_UNSUCCESSFUL && apReg == None)
            && (apRegAddress != 0 && !NtSuccess(hdr.0) ==> hr.nt == hdr.0 && apReg == None)
            && (apRegAddress != 0 && NtSuccess(hdr.0) ==>
                  && (!ValidApRegHeader(h) ==> hr.nt == STATUS_BAD_DATA && apReg == None)
                  && (ValidApRegHeader(h) && !heapOk ==> hr.nt == STATUS_NO_MEMORY && apReg == None)
                  && (ValidApRegHeader(h) && heapOk ==> hr.nt == block.0 && apReg == Some(block.1)))
    ensures NtSuccess(hr.nt) ==>
              var h := DecodeApRegHeader(DdrRead(ctx, rawFile, apRegAddress, AP_REG_HEADER_SIZE).1);
              ValidApRegHeader(h) && ctx' == ctx.(totalCpuContextSizeInBytes := ApRegDataSize(h.cpuCount) as u64)
    ensures !NtSuccess(hr.nt) ==> ctx' == ctx.(dumpHeaderStatus := DHS_NO_SVINFO)
  {
    var status := STATUS_UNSUCCESSFUL;
    ctx' := ctx;
    apReg := None;
    if apRegAddress != 0 {
      var header;
      status, header := ReadBlock(ctx, apRegAddress, AP_REG_HEADER_SIZE, rawFile);
      if NtSuccess(status) {
        var h := DecodeApRegHeader(header);
        status := CheckApRegHeader(h);
        if status == STATUS_SUCCESS {
          var dataSize := ApRegDataSize(h.cpuCount);
          if !heapOk {
            status := STATUS_NO_MEMORY;
          } else {
            var block;
            status, block := ReadBlock(ctx, apRegAddress, dataSize, rawFile);
            apReg := Some(block);
            if NtSuccess(status) {
              ctx' := ctx'.(totalCpuContextSizeInBytes := dataSize as u64);
              status := STATUS_SUCCESS;
            }
          }
        }
      }
    }
    if !NtSuccess(status) {
      ctx' := ctx'.(dumpHeaderStatus := DHS_NO_SVINFO);
    }
    hr := FromNt(status);
  }

  // ------------------------------------------------------ CPU context

  /** ARM_CONTEXT_ARM and the INTEGER and CONTROL sections of the NT ARM CONTEXT flags. */
  const ARM_CONTEXT_ARM: u32 := 0x0020_0000
  const ARM_CONTEXT_CONTROL: u32 := 0x0020_0001
  const ARM_CONTEXT_INTEGER: u32 := 0x0020_0002
  const ARM_CONTEXT_INTEGER_CONTROL: u32 := (ARM_CONTEXT_INTEGER as bv32 | ARM_CONTEXT_CONTROL as bv32) as u32

  /** The ARMv7 processor modes the converters know (enum CPUMode). */
  const USR_MODE: u32 := 0x10
  const FIQ_MODE: u32 := 0x11
  const IRQ_MODE: u32 := 0x12
  const SVC_MODE: u32 := 0x13
  const ABT_MODE: u32 := 0x17
  const UND_MODE: u32 := 0x1b

  datatype CpuMode = Usr | Fiq | Irq | Svc | Abt | Und

  /** The mode in the low five bits of a CPSR, when it has banked registers the converters read. */
  function ModeOf(cpsr: nat): (m: Option<CpuMode>)
    ensures m == Some(Usr) <==> cpsr % 0x20 == USR_MODE as nat
    ensures m == Some(Fiq) <==> cpsr % 0x20 == FIQ_MODE as nat
    ensures m == None <==> cpsr % 0x20 !in {USR_MODE as nat, FIQ_MODE as nat, IRQ_MODE as nat,
                                             SVC_MODE as nat, ABT_MODE as nat, UND_MODE as nat}
  {
    var mode := cpsr % 0x20;
    if mode == USR_MODE as nat then Some(Usr)
    else if mode == FIQ_MODE as nat then Some(Fiq)
    else if mode == IRQ_MODE as nat then Some(Irq)
    else if mode == SVC_MODE as nat then Some(Svc)
    else if mode == ABT_MODE as nat then Some(Abt)
    else if mode == UND_MODE as nat then Some(Und)
    else None
  }

  /**
   * The NT ARM CONTEXT fields the conversions write: ContextFlags, R0-R12,
   * Sp, Lr, Pc, Cpsr and Fpscr. Everything the memset clears and no
   * conversion sets (the VFP and debug registers) is not part of the model.
   */
  datatype ArmContext = ArmContext(contextFlags: u32, r: seq<u32>, sp: u32, lr: u32, pc: u32, cpsr: u32, fpscr: u32)

  /** A register bank of one mode: its saved SPSR, SP (R13) and LR (R14). */
  datatype BankedRegs = BankedRegs(spsr: u32, r13: u32, r14: u32)

  /**
   * SECURE_CPU_CONTEXT (tzbsp_mon_cpu_ctx_t): Mon_Lr, Mon_Spsr, Usr_R0 to
   * Usr_R14, the Irq, Svc, Abt and Und banks, Fiq_Spsr and Fiq_R8 to Fiq_R14.
   */
  datatype SecureCpuContext = SecureCpuContext(
    monLr: u32,
    monSpsr: u32,
    usr: seq<u32>,
    irq: BankedRegs,
    svc: BankedRegs,
    abt: BankedRegs,
    und: BankedRegs,
    fiqSpsr: u32,
    fiq: seq<u32>)

  predicate WellFormedSecure(tz: SecureCpuContext)
  {
    |tz.usr| == 15 && |tz.fiq| == 7
  }

  /** The SP and LR the banks of a saved secure context hold for a mode. */
  function SecureSpLr(tz: SecureCpuContext, m: CpuMode): (u32, u32)
    requires WellFormedSecure(tz)
  {
    match m
    case Usr => (tz.usr[13], tz.usr[14])
    case Fiq => (tz.fiq[5], tz.fiq[6])
    case Irq => (tz.irq.r13, tz.irq.r14)
    case Svc => (tz.svc.r13, tz.svc.r14)
    case Abt => (tz.abt.r13, tz.abt.r14)
    case Und => (tz.und.r13, tz.und.r14)
  }

  /** R0-R12: the user bank, with R8-R12 of the fiq bank in fiq mode. */
  function SecureGeneralRegs(tz: SecureCpuContext, fiqMode: bool): (regs: seq<u32>)
    requires WellFormedSecure(tz)
    ensures |regs| == 13
    ensures forall i :: 0 <= i < 13 ==> regs[i] == if fiqMode && 8 <= i then tz.fiq[i - 8] else tz.usr[i]
  {
    seq(13, i requires 0 <= i < 13 => if fiqMode && 8 <= i then tz.fiq[i - 8] else tz.usr[i])
  }

  /**
   * TZBSPContextToNTContext. The context was captured in monitor mode:
   * Mon_Lr is the interrupted Pc and Mon_Spsr its Cpsr. R0-R12 come from the
   * user bank, and the mode in Mon_Spsr picks the bank of Sp and Lr (fiq mode
   * also its own R8-R12). An unrecognised mode is STATUS_UNSUCCESSFUL and
   * leaves Sp and Lr zero.
   */
  function TzbspContextToNtContext(tz: SecureCpuContext): (r: (NtStatus, ArmContext))
    requires WellFormedSecure(tz)
    ensures var c := r.1;
            && c.contextFlags == ARM_CONTEXT_INTEGER_CONTROL && c.pc == tz.monLr && c.cpsr == tz.monSpsr
            && c.fpscr == 0 && |c.r| == 13
    ensures r.0 == STATUS_SUCCESS <==> ModeOf(tz.monSpsr).Some?
    ensures r.0 != STATUS_SUCCESS ==> r.0 == STATUS_UNSUCCESSFUL
    ensures forall i :: 0 <= i < 8 ==> r.1.r[i] == tz.usr[i]
    ensures forall i :: 8 <= i < 13 ==> r.1.r[i] == if ModeOf(tz.monSpsr) == Some(Fiq) then tz.fiq[i - 8] else tz.usr[i]
    ensures (r.1.sp, r.1.lr) == match ModeOf(tz.monSpsr)
                                case Some(m) => SecureSpLr(tz, m)
                                case None => (0, 0)
  {
    var base := ArmContext(ARM_CONTEXT_INTEGER_CONTROL, SecureGeneralRegs(tz, false), 0, 0, tz.monLr, tz.monSpsr, 0);
    match ModeOf(tz.monSpsr)
    case Some(Usr) => (STATUS_SUCCESS, base.(sp := tz.usr[13], lr := tz.usr[14]))
    case Some(Fiq) =>
      (STATUS_SUCCESS, base.(r := SecureGeneralRegs(tz, true), sp := tz.fiq[5], lr := tz.fiq[6]))
    case Some(Irq) => (STATUS_SUCCESS, base.(sp := tz.irq.r13, lr := tz.irq.r14))
    case Some(Svc) => (STATUS_SUCCESS, base.(sp := tz.svc.r13, lr := tz.svc.r14))
    case Some(Abt) => (STATUS_SUCCESS, base.(sp := tz.abt.r13, lr := tz.abt.r14))
    case Some(Und) => (STATUS_SUCCESS, base.(sp := tz.und.r13, lr := tz.und.r14))
    case None => (STATUS_UNSUCCESSFUL, base)
  }

  /** The conversion reads only the mode bits of Mon_Spsr, so contexts differing above them map alike but for Cpsr. */
  lemma TzbspModeBitsDecide(tz: SecureCpuContext, spsr: u32)
    requires WellFormedSecure(tz) && spsr % 0x20 == tz.monSpsr % 0x20
    ensures var a := TzbspContextToNtContext(tz);
            var b := TzbspContextToNtContext(tz.(monSpsr := spsr));
            a.0 == b.0 && b.1 == a.1.(cpsr := spsr)
  {
  }
}
