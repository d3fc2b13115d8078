// The 64-bit AP_REG format (raw2dump/src/apreg64.cpp and its copy in
// test/offdumptool/exe/apreg64.cpp): the SDI register dumps of one CPU, their
// conversion to the NT ARM64 and ARM contexts, and the location of the AP_REG
// table address inside the OCIMEM section.
module ApReg64 {
  import opened Machine
  import opened Status
  import opened RawDumpDefs
  import opened Raw2DumpUtil
  import opened ApReg

  // ------------------------------------------------ SDI register dumps

  /**
   * SDI_CPU64_CTXT_REGS_TYPE without its four reserved words: x0 to x30 in
   * `x`, then the Pc, CurrentEL and the SP, ELR and SPSR of EL3, EL2 and EL1,
   * and the SP of EL0.
   */
  datatype SdiCpu64Regs = SdiCpu64Regs(
    x: seq<u64>,
    pc: u64,
    currentEL: u64,
    spEl3: u64, elrEl3: u64, spsrEl3: u64,
    spEl2: u64, elrEl2: u64, spsrEl2: u64,
    spEl1: u64, elrEl1: u64, spsrEl1: u64,
    spEl0: u64)

  predicate WellFormed64(a: SdiCpu64Regs)
  {
    |a.x| == 31
  }

  /**
   * SDI_CPU32_CTXT_REGS_TYPE without its reserved words: r0 to r12 in `r`,
   * the banked SP and LR of usr, irq, svc, abt and und mode, r8 to r14 of
   * fiq mode in `fiq`, then Pc, Cpsr and the monitor and hyp registers.
   * Every register is stored in a UINT64.
   */
  datatype SdiCpu32Regs = SdiCpu32Regs(
    r: seq<u64>,
    r13Usr: u64, r14Usr: u64,
    r13Hyp: u64,
    r14Irq: u64, r13Irq: u64,
    r14Svc: u64, r13Svc: u64,
    r14Abt: u64, r13Abt: u64,
    r14Und: u64, r13Und: u64,
    fiq: seq<u64>,
    pc: u64,
    cpsr: u64,
    r13Mon: u64, r14Mon: u64, r14Hyp: u64)

  predicate WellFormed32(a: SdiCpu32Regs)
  {
    |a.r| == 13 && |a.fiq| == 7
  }

  // ---------------------------------------------------- ARM64 context

  /**
   * The NT ARM64 CONTEXT fields the conversion writes or the memset clears:
   * ContextFlags, Cpsr, X0-X28, Fp, Lr, Sp, Pc, Fpcr and Fpsr. The vector and
   * debug registers, also cleared and never set, are not part of the model.
   */
  datatype Arm64Context = Arm64Context(contextFlags: u32, cpsr: u32, x: seq<u64>, fp: u64, lr: u64, sp: u64, pc: u64,
                                       fpcr: u32, fpsr: u32)

  /** The general registers of an NT ARM64 context, by name. */
  datatype Arm64Register = X(n: nat) | Fp | Lr | Sp | Pc

  /** The value of a register of an NT ARM64 context. */
  function Arm64RegisterValue(c: Arm64Context, reg: Arm64Register): u64
    requires |c.x| == 29
    requires reg.X? ==> reg.n < 29
  {
    match reg
    case X(n) => c.x[n]
    case Fp => c.fp
    case Lr => c.lr
    case Sp => c.sp
    case Pc => c.pc
  }

  /**
   * Where the register of the NT context is saved in the SDI dump: X0-X28 as
   * x0-x28, Fp as x29, Lr as x30, Pc as pc; the stack pointer is the EL3 one.
   */
  function SdiSourceOf(a: SdiCpu64Regs, reg: Arm64Register): u64
    requires WellFormed64(a)
    requires reg.X? ==> reg.n < 29
  {
    match reg
    case X(n) => a.x[n]
    case Fp => a.x[29]
    case Lr => a.x[30]
    case Sp => a.spEl3
    case Pc => a.pc
  }

  /**
   * ConvertAPREGContextToARM64Context: clears the context, takes Cpsr from
   * the low 32 bits of spsr_el3 and the general registers as SdiSourceOf
   * places them. ContextFlags is left zero. It always returns S_OK.
   */
  function ConvertApregContextToArm64Context(a: SdiCpu64Regs): (r: (HResult, Arm64Context))
    requires WellFormed64(a)
    ensures r.0 == S_OK
    ensures |r.1.x| == 29
    ensures r.1.contextFlags == 0 && r.1.fpcr == 0 && r.1.fpsr == 0
    ensures r.1.cpsr as int == a.spsrEl3 as int % U32_LIMIT
  {
    (S_OK, Arm64Context(0, Trunc32(a.spsrEl3), a.x[..29], a.x[29], a.x[30], a.spEl3, a.pc, 0, 0))
  }

  /** Every register of the converted context holds the SDI register it is saved as. */
  lemma Arm64RegistersFromSdi(a: SdiCpu64Regs, reg: Arm64Register)
    requires WellFormed64(a)
    requires reg.X? ==> reg.n < 29
    ensures Arm64RegisterValue(ConvertApregContextToArm64Context(a).1, reg) == SdiSourceOf(a, reg)
  {
  }

  /** Only spsr_el3's upper half is lost: two dumps convert alike exactly when they agree on what is copied. */
  lemma {:induction false} Arm64ConversionInjective(a: SdiCpu64Regs, b: SdiCpu64Regs)
    requires WellFormed64(a) && WellFormed64(b)
    ensures ConvertApregContextToArm64Context(a) == ConvertApregContextToArm64Context(b) <==>
              a.x == b.x && a.pc == b.pc && a.spEl3 == b.spEl3 && a.spsrEl3 % U32_LIMIT == b.spsrEl3 % U32_LIMIT
  {
    var ca := ConvertApregContextToArm64Context(a).1;
    var cb := ConvertApregContextToArm64Context(b).1;
    if ca == cb {
      assert a.x == ca.x + [ca.fp, ca.lr];
      assert b.x == cb.x + [cb.fp, cb.lr];
    }
    if a.x == b.x && a.pc == b.pc && a.spEl3 == b.spEl3 && a.spsrEl3 % U32_LIMIT == b.spsrEl3 % U32_LIMIT {
      assert ca.cpsr == cb.cpsr;
    }
  }

  // ------------------------------------------------------ ARM context

  /** The SP and LR the banks of an SDI ARM dump hold for a mode. */
  function SdiSpLr(a: SdiCpu32Regs, m: CpuMode): (u64, u64)
    requires WellFormed32(a)
  {
    match m
    case Usr => (a.r13Usr, a.r14Usr)
    case Fiq => (a.fiq[5], a.fiq[6])
    case Irq => (a.r13Irq, a.r14Irq)
    case Svc => (a.r13Svc, a.r14Svc)
    case Abt => (a.r13Abt, a.r14Abt)
    case Und => (a.r13Und, a.r14Und)
  }

  /** R0-R12 as ULONGs: r0-r12, with r8-r12 of the fiq bank in fiq mode. */
  function SdiGeneralRegs(a: SdiCpu32Regs, fiqMode: bool): (regs: seq<u32>)
    requires WellFormed32(a)
    ensures |regs| == 13
    ensures forall i :: 0 <= i < 13 ==> regs[i] == Trunc32(if fiqMode && 8 <= i then a.fiq[i - 8] else a.r[i])
  {
    var regs := seq<u32>(13, i requires 0 <= i < 13 => Trunc32(if fiqMode && 8 <= i then a.fiq[i - 8] else a.r[i]));
    regs
  }

  /**
   * ConvertAPREGContextToARMContext. Each register is cast to a ULONG.
   * R0-R12 come from r0-r12, Pc and Cpsr from pc and cpsr, and the mode in
   * cpsr picks the bank of Sp and Lr (fiq mode also its own R8-R12). Unlike
   * the legacy conversion, an unrecognised mode still returns S_OK, with Sp
   * and Lr left zero.
   */
  function ConvertApregContextToArmContext(a: SdiCpu32Regs): (r: (HResult, ArmContext))
    requires WellFormed32(a)
    ensures r.0 == S_OK
    ensures var c := r.1;
            && c.contextFlags == ARM_CONTEXT_INTEGER_CONTROL && c.pc == Trunc32(a.pc) && c.cpsr == Trunc32(a.cpsr)
            && c.fpscr == 0 && |c.r| == 13
    ensures forall i :: 0 <= i < 8 ==> r.1.r[i] == Trunc32(a.r[i])
    ensures forall i :: 8 <= i < 13 ==>
              r.1.r[i] == Trunc32(if ModeOf(a.cpsr) == Some(Fiq) then a.fiq[i - 8] else a.r[i])
    ensures (r.1.sp, r.1.lr) == match ModeOf(a.cpsr)
                                case Some(m) => (Trunc32(SdiSpLr(a, m).0), Trunc32(SdiSpLr(a, m).1))
                                case None => (0, 0)
  {
    var base := ArmContext(ARM_CONTEXT_INTEGER_CONTROL, SdiGeneralRegs(a, false), 0, 0, Trunc32(a.pc), Trunc32(a.cpsr), 0);
    match ModeOf(a.cpsr)
    case Some(Usr) => (S_OK, base.(sp := Trunc32(a.r13Usr), lr := Trunc32(a.r14Usr)))
    case Some(Fiq) =>
      (S_OK, base.(r := SdiGeneralRegs(a, true), sp := Trunc32(a.fiq[5]), lr := Trunc32(a.fiq[6])))
    case Some(Irq) => (S_OK, base.(sp := Trunc32(a.r13Irq), lr := Trunc32(a.r14Irq)))
    case Some(Svc) => (S_OK, base.(sp := Trunc32(a.r13Svc), lr := Trunc32(a.r14Svc)))
    case Some(Abt) => (S_OK, base.(sp := Trunc32(a.r13Abt), lr := Trunc32(a.r14Abt)))
    case Some(Und) => (S_OK, base.(sp := Trunc32(a.r13Und), lr := Trunc32(a.r14Und)))
    case None => (S_OK, base)
  }

  /**
   * An SDI ARM dump holding the registers of a legacy secure context: the
   * user bank in r0-r14, the saved Mon_Lr as pc and Mon_Spsr as cpsr, and
   * the same irq, svc, abt, und and fiq banks.
   */
  predicate SameRegisters(tz: SecureCpuContext, a: SdiCpu32Regs)
    requires WellFormedSecure(tz) && WellFormed32(a)
  {
    && (forall i :: 0 <= i < 13 ==> a.r[i] == tz.usr[i] as u64)
    && a.r13Usr == tz.usr[13] as u64 && a.r14Usr == tz.usr[14] as u64
    && a.pc == tz.monLr as u64 && a.cpsr == tz.monSpsr as u64
    && a.r13Irq == tz.irq.r13 as u64 && a.r14Irq == tz.irq.r14 as u64
    && a.r13Svc == tz.svc.r13 as u64 && a.r14Svc == tz.svc.r14 as u64
    && a.r13Abt == tz.abt.r13 as u64 && a.r14Abt == tz.abt.r14 as u64
    && a.r13Und == tz.und.r13 as u64 && a.r14Und == tz.und.r14 as u64
    && (forall i :: 0 <= i < 7 ==> a.fiq[i] == tz.fiq[i] as u64)
  }

  /**
   * The two ARM conversions agree: for the same registers they build the
   * same context, and they differ only in what they return for an
   * unrecognised mode (the legacy one fails, the SDI one returns S_OK).
   */
  lemma {:induction false} ArmConversionsAgree(tz: SecureCpuContext, a: SdiCpu32Regs)
    requires WellFormedSecure(tz) && WellFormed32(a) && SameRegisters(tz, a)
    ensures TzbspContextToNtContext(tz).1 == ConvertApregContextToArmContext(a).1
    ensures TzbspContextToNtContext(tz).0 == STATUS_SUCCESS <==> ModeOf(a.cpsr).Some?
  {
    var t := TzbspContextToNtContext(tz).1;
    var c := ConvertApregContextToArmContext(a).1;
    assert t.r == c.r by {
      forall i | 0 <= i < 13 ensures t.r[i] == c.r[i] {
      }
    }
  }

  // ------------------------------------------------ OCIMEM AP_REG address

  /** "OCIMEM.BIN", the bytes strcmp compares the section name with. */
  const OCIMEM_SECTION_NAME: seq<u8> := [0x4F, 0x43, 0x49, 0x4D, 0x45, 0x4D, 0x2E, 0x42, 0x49, 0x4E]

  /** The AP_REG table address is kept at SHARED_IMEM + 0x10; SHARED_IMEM is 0x7F000 into OCIMEM on newer SoCs. */
  const SHARED_IMEM_BASE: u64 := 0x7_F000
  const APREG_ADDRESS_IN_IMEM: u64 := 0x10

  /** strcmp of the zero-padded 20-byte name with "OCIMEM.BIN": the ten characters, then the terminator. */
  predicate IsOcimemSection(s: SectionHeader)
  {
    s.name[..10] == OCIMEM_SECTION_NAME && s.name[10] == 0
  }

  /** The first of the first `count` sections named OCIMEM.BIN. */
  function FirstOcimem(t: seq<SectionHeader>, count: nat): (r: Option<nat>)
    requires count <= |t|
    ensures r.Some? ==> r.value < count && IsOcimemSection(t[r.value])
                        && forall j :: 0 <= j < r.value ==> !IsOcimemSection(t[j])
    ensures r.None? <==> forall j :: 0 <= j < count ==> !IsOcimemSection(t[j])
  {
    if count == 0 then None
    else match FirstOcimem(t, count - 1)
      case Some(i) => Some(i)
      case None => if IsOcimemSection(t[count - 1]) then Some(count - 1) else None
  }

  /** Where the AP_REG address is read: the OCIMEM section's file offset + 0x10, + 0x7F000 with a shared IMEM. */
  function OcimemApRegOffset(s: SectionHeader, sharedImem: bool): (off: u64)
    ensures s.offset as int + 0x7_F010 < U64_LIMIT ==>
              off as int == s.offset as int + (if sharedImem then 0x7_F010 else 0x10)
  {
    if sharedImem then Add64(Add64(s.offset, SHARED_IMEM_BASE), APREG_ADDRESS_IN_IMEM)
    else Add64(s.offset, APREG_ADDRESS_IN_IMEM)
  }

  /**
   * The index the search loop of GetAPREG64AddrFromOCIMEMSection leaves
   * behind: the first OCIMEM section, or SectionsCount when there is none.
   * The code then reads the section table at that index in both cases.
   */
  function OcimemIndexAsWritten(t: seq<SectionHeader>, count: nat): nat
    requires count <= |t|
  {
    match FirstOcimem(t, count)
    case Some(i) => i
    case None => count
  }

  /** A raw dump without an OCIMEM section makes the code read the entry past the end of its section table. */
  lemma MissingOcimemReadsPastTable(t: seq<SectionHeader>)
    requires forall j :: 0 <= j < |t| ==> !IsOcimemSection(t[j])
    ensures OcimemIndexAsWritten(t, |t|) == |t|
    ensures !(OcimemIndexAsWritten(t, |t|) < |t|)
  {
  }

  /** The 64-bit LARGE_INTEGER after a read of |v| bytes into its low end: the other bytes are kept. */
  function LowBytesReplaced(a: u64, v: seq<u8>): (r: u64)
    requires |v| <= 8
    ensures |v| == 4 ==> r as int == LE(v) + (a as int / U32_LIMIT) * U32_LIMIT
  {
    var w := v + EncodeLE(a, 8)[|v|..];
    Pow256Is(8);
    assert |v| == 4 ==> LE(w) == LE(v) + (a as int / U32_LIMIT) * U32_LIMIT by {
      if |v| == 4 {
        LowBytesSplit(a, v);
      }
    }
    LE(w)
  }

  lemma LowBytesSplit(a: u64, v: seq<u8>)
    requires |v| == 4
    ensures LE(v + EncodeLE(a, 8)[4..]) == LE(v) + (a as int / U32_LIMIT) * U32_LIMIT
  {
    var e := EncodeLE(a, 8);
    var w := v + e[4..];
    Pow256Is(4);
    Pow256Is(8);
    EncodeDecodeLE(a, 8);
    ModOfSmall(a, U64_LIMIT);
    SplitLE(w, 4);
    assert w[..4] == v && w[4..] == e[4..];
    SplitLE(e, 4);
    var lo, hi := LE(e[..4]), LE(e[4..]);
    assert a as int == lo + U32_LIMIT * hi && 0 <= lo < U32_LIMIT;
    assert hi == a as int / U32_LIMIT;
  }

  /**
   * GetAPREG64AddrFromOCIMEMSection, with the missing section handled:
   * search the section table for OCIMEM.BIN; without one it is E_FAIL and
   * nothing is read. Otherwise position the raw file at OcimemApRegOffset
   * and read four bytes into the low half of APRegAddress; a failed
   * SetPos, a failed Read or a read of no bytes is E_FAIL. `setPos` and
   * `read` are the outcomes of the two raw-file calls.
   */
  method GetApreg64AddrFromOcimem(t: seq<SectionHeader>, count: u32, sharedImem: bool, address: u64,
                                   setPos: HResult, read: ReadResult<seq<u8>>)
    returns (hr: HResult, readAt: Option<u64>, address': u64)
    requires count as nat <= |t|
    requires |read.value| == read.bytes <= 4
    ensures readAt == match FirstOcimem(t, count as nat)
                      case Some(i) => Some(OcimemApRegOffset(t[i], sharedImem))
                      case None => None
    ensures hr == S_OK <==> readAt.Some? && Succeeded(setPos) && Succeeded(read.hr) && read.bytes != 0
    ensures hr != S_OK ==> hr == E_FAIL
    ensures address' == if readAt.Some? && Succeeded(setPos) && Succeeded(read.hr) then LowBytesReplaced(address, read.value)
                        else address
  {
    var index := FindOcimemSection(t, count);
    address' := address;
    if index == count {
      return E_FAIL, None, address;
    }
    var offset := OcimemApRegOffset(t[index], sharedImem);
    readAt := Some(offset);
    if !Succeeded(setPos) {
      return E_FAIL, readAt, address;
    }
    if !Succeeded(read.hr) {
      return E_FAIL, readAt, address;
    }
    address' := LowBytesReplaced(address, read.value);
    if read.bytes == 0 {
      return E_FAIL, readAt, address';
    }
    hr := S_OK;
  }

  /** The search loop: the index of the first OCIMEM.BIN section, or count when there is none. */
  method FindOcimemSection(t: seq<SectionHeader>, count: u32) returns (index: u32)
    requires count as nat <= |t|
    ensures index <= count
    ensures FirstOcimem(t, count as nat) == if index == count then None else Some(index as nat)
  {
    index := 0;
    while index < count
      invariant index <= count
      invariant forall j :: 0 <= j < index ==> !IsOcimemSection(t[j])
    {
      if IsOcimemSection(t[index]) {
        return;
      }
      index := index + 1;
    }
  }

  /**
   * The offline dump tool's GetAPREG64AddrFromOCIMEMSection, with the
   * missing section handled likewise: the four bytes are read with
   * READ_EXACT at the same offset, and a failed read returns its HRESULT.
   * `read` is the outcome of ReadAtOffset; on success it holds four bytes.
   */
  method GetApreg64AddrReadExact(t: seq<SectionHeader>, count: u32, sharedImem: bool, address: u64,
                                  read: ReadResult<seq<u8>>)
    returns (hr: HResult, readAt: Option<u64>, address': u64)
    requires count as nat <= |t|
    requires Succeeded(read.hr) ==> |read.value| == 4
    ensures readAt == match FirstOcimem(t, count as nat)
                      case Some(i) => Some(OcimemApRegOffset(t[i], sharedImem))
                      case None => None
    ensures readAt.None? ==> hr == E_FAIL && address' == address
    ensures readAt.Some? ==> (hr == if Succeeded(read.hr) then S_OK else read.hr)
    ensures address' == if readAt.Some? && Succeeded(read.hr) then LowBytesReplaced(address, read.value) else address
  {
    var index := FindOcimemSection(t, count);
    if index == count {
      return E_FAIL, None, address;
    }
    readAt := Some(OcimemApRegOffset(t[index], sharedImem));
    if !Succeeded(read.hr) {
      return read.hr, readAt, address;
    }
    hr, address' := S_OK, LowBytesReplaced(address, read.value);
  }
}
