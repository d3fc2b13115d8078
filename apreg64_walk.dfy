// The walk of the MSM dump table that collects the CPU contexts of a 64-bit
// AP_REG into the global context list: parseDumpTable and parseDumpData of
// raw2dump/src/apreg64.cpp and of test/offdumptool/exe/apreg64.cpp.
module ApReg64Walk {
  import opened Machine
  import opened Status
  import opened RawDumpDefs
  import opened Raw2DumpUtil
  import opened Raw2DumpReader

  const APREG_MSM_DUMP_TABLE_VERSION_ARM: u32 := 0x0000_0001
  const APREG_MSM_DUMP_TABLE_VERSION_ARM64: u32 := 0x0020_0000
  const MSM_DUMP_TYPE_DATA: u32 := 0
  const MSM_DUMP_TYPE_TABLE: u32 := 1
  const MSM_DUMP_DATA_CPU_CTX: u32 := 0

  /**
   * sizeof AP_REG_MSM_DUMP_TABLE (with its one inline entry),
   * AP_REG_MSM_DUMP_ENTRY, AP_REG_MSM_DUMP_DATA and SDICPUCtxtType.
   */
  const DUMP_TABLE_SIZE: u32 := 56
  const DUMP_ENTRY_SIZE: u32 := 48
  const DUMP_DATA_SIZE: u32 := 64
  const SDI_CPU_CONTEXT_SIZE: u32 := 768

  /** Which copy of the walk: raw2dump's, or the offline dump tool's. */
  datatype Tool = Raw2Dump | OffDumpTool

  /**
   * How a new node is linked: FrameLocal through the prevContext of the
   * current call, as both copies do; ListEnd through the list's end, shared
   * by all calls.
   */
  datatype Linking = FrameLocal | ListEnd

  /**
   * The context of one walk: the read of `length` bytes at a physical
   * address of the dump, and the variant.
   */
  datatype WalkEnv = WalkEnv(read: (u64, u32) -> (NtStatus, seq<u8>), tool: Tool, linking: Linking)

  /** A read gives as many bytes as were asked for, as a zeroed buffer read into does. */
  predicate EnvOk(env: WalkEnv)
  {
    forall pa: u64, length: u32 :: |env.read(pa, length).1| == length as nat
  }

  /** The reads are those of ReadFromDDRSectionByPhysicalAddress over the DDR sections of the raw file. */
  predicate ReadsDdr(env: WalkEnv, ctx: DmpContext, rawFile: seq<u8>)
  {
    && EnvOk(env)
    && ctx.ddrMemoryMapCount as nat <= |ctx.ddrMemoryMap|
    && forall pa: u64, length: u32 {:trigger DdrRead(ctx, rawFile, pa, length)} ::
         env.read(pa, length) == DdrRead(ctx, rawFile, pa, length)
  }

  /** raw2dump accepts the ARM and the ARM64 table versions; the offline dump tool only 0x01. */
  predicate VersionAccepted(tool: Tool, v: u32)
  {
    match tool
    case Raw2Dump => v == APREG_MSM_DUMP_TABLE_VERSION_ARM || v == APREG_MSM_DUMP_TABLE_VERSION_ARM64
    case OffDumpTool => v == APREG_MSM_DUMP_TABLE_VERSION_ARM
  }

  // ---------------------------------------------------- the context list

  /** A PCPUContext64: null, never written (malloc), or the node allocated index-th. */
  datatype Link = Null | Unset | Node(index: nat)

  /** CPUContext64: the SDI dump of one CPU and the pointer to the next node. */
  datatype CpuNode = CpuNode(context: seq<u8>, flink: Link)

  /** CPUContext64List with the nodes it reaches, in allocation order. */
  datatype ContextList = ContextList(nodes: seq<CpuNode>, head: Link, end: Link, numProcessors: u32)

  /** The list as GetAPREG64AddrFromOCIMEMSection initialises it. */
  function EmptyList(): ContextList
  {
    ContextList([], Null, Null, 0)
  }

  predicate LinkIn(l: Link, n: nat)
  {
    l.Node? ==> l.index < n
  }

  /** numProcressors counts the nodes, modulo 2^32. */
  predicate Counted(s: ContextList)
  {
    s.numProcessors as int == |s.nodes| % U32_LIMIT
  }

  /** A later state of the list as far as the walk's own preconditions need: no fewer nodes, and the end among them. */
  predicate Extends(s: ContextList, t: ContextList)
  {
    |s.nodes| <= |t.nodes| && LinkIn(t.end, |t.nodes|)
  }

  /** A later state of the list: nodes are only added, and the contexts of earlier ones are kept. */
  predicate Grows(s: ContextList, t: ContextList)
  {
    && |s.nodes| <= |t.nodes|
    && LinkIn(t.end, |t.nodes|)
    && (forall i :: 0 <= i < |s.nodes| ==> t.nodes[i].context == s.nodes[i].context)
    && (Counted(s) ==> Counted(t))
  }

  lemma GrowsTrans(s: ContextList, t: ContextList, u: ContextList)
    requires Grows(s, t) && Grows(t, u)
    ensures Grows(s, u)
  {
  }

  /** Every node leads to the one allocated after it, from the head to the end. */
  predicate Chained(s: ContextList)
  {
    && (s.nodes == [] ==> s.end == Null)
    && (s.nodes != [] ==> s.head == Node(0) && s.end == Node(|s.nodes| - 1))
    && forall i :: 0 <= i < |s.nodes| - 1 ==> s.nodes[i].flink == Node(i + 1)
  }

  /** The outcome of a walk: its HRESULT, or undefined behaviour (a null dereference or a read past a buffer). */
  datatype WalkOutcome = Done(hr: HResult) | Fault | OutOfDepth

  // ------------------------------------------------------ table layout

  function TableVersion(b: seq<u8>): u32
    requires |b| >= 8
  {
    U32At(b, 0)
  }

  function NumEntries(b: seq<u8>): u32
    requires |b| >= 8
  {
    U32At(b, 4)
  }

  function EntryOffset(k: nat): nat
  {
    8 + DUMP_ENTRY_SIZE as nat * k
  }

  predicate EntryInBuffer(b: seq<u8>, k: nat)
  {
    EntryOffset(k) + DUMP_ENTRY_SIZE as nat <= |b|
  }

  /** AP_REG_MSM_DUMP_ENTRY: id at 0, the name at 4, type at 36, Address at 40. */
  function EntryId(b: seq<u8>, k: nat): u32
    requires EntryInBuffer(b, k)
  {
    U32At(b, EntryOffset(k))
  }

  function EntryType(b: seq<u8>, k: nat): u32
    requires EntryInBuffer(b, k)
  {
    U32At(b, EntryOffset(k) + 36)
  }

  function EntryAddress(b: seq<u8>, k: nat): u64
    requires EntryInBuffer(b, k)
  {
    U64At(b, EntryOffset(k) + 40)
  }

  /** A DATA entry whose id, without the processor number in its low nibble, is MSM_DUMP_DATA_CPU_CTX. */
  predicate IsCpuContextEntry(b: seq<u8>, k: nat)
    requires EntryInBuffer(b, k)
  {
    EntryType(b, k) == MSM_DUMP_TYPE_DATA && EntryId(b, k) / 16 == MSM_DUMP_DATA_CPU_CTX
  }

  /** The UINT32 size of a table with n entries. */
  function TableSize(n: u32): u32
    requires n >= 1
  {
    Trunc32(DUMP_TABLE_SIZE as int + DUMP_ENTRY_SIZE as int * (n as int - 1))
  }

  /**
   * The table the loop walks: a table of more than one entry is read again
   * whole into a zeroed allocation, whatever that read returns; otherwise
   * the header read is copied.
   */
  function TableBuffer(env: WalkEnv, address: u64, header: seq<u8>): seq<u8>
    requires EnvOk(env) && |header| >= 8
  {
    var n := NumEntries(header);
    if n > 1 then env.read(address, TableSize(n)).1 else header
  }

  /** The table at an address, when its header reads and its version is accepted. */
  function TableAt(env: WalkEnv, address: u64): Option<seq<u8>>
    requires EnvOk(env)
  {
    var header := env.read(address, DUMP_TABLE_SIZE);
    if NtSuccess(header.0) && VersionAccepted(env.tool, TableVersion(header.1))
    then Some(TableBuffer(env, address, header.1))
    else None
  }

  /**
   * parseDumpData: the AP_REG_MSM_DUMP_DATA at the entry's address gives
   * the address of the CPU's SDI dump, which is read into the node. Neither
   * read's status is looked at.
   */
  function CpuContextAt(env: WalkEnv, entryAddress: u64): seq<u8>
    requires EnvOk(env)
  {
    var data := env.read(entryAddress, DUMP_DATA_SIZE).1;
    env.read(U64At(data, 40), SDI_CPU_CONTEXT_SIZE).1
  }

  // ---------------------------------------------------------- the walk

  /**
   * The node added for a CPU-context entry and the new prevContext; None is
   * a write through a null prevContext. raw2dump's node comes zeroed (its
   * Flink null), the offline tool's from malloc (its Flink never written).
   * With FrameLocal linking the first node of the list becomes the head and
   * prevContext; the new node is linked after prevContext, filled, and
   * becomes prevContext. The offline tool skips the linking and the filling
   * when prevContext is null but counts the node all the same. With ListEnd
   * linking the node is linked after the list's end and becomes the end.
   */
  function AddCpuNode(env: WalkEnv, s: ContextList, prev: Link, entryAddress: u64): (r: Option<(ContextList, Link)>)
    requires EnvOk(env) && LinkIn(prev, |s.nodes|) && LinkIn(s.end, |s.nodes|)
    ensures r.Some? ==> OneMore(s, r.value.0, r.value.1)
    ensures env.linking == ListEnd ==> r.Some? && r.value.1 == prev
  {
    var context := CpuContextAt(env, entryAddress);
    match env.linking
    case FrameLocal => AddFrameLocal(env.tool, s, prev, context)
    case ListEnd => Some((AddAtEnd(env.tool, s, context), prev))
  }

  /** One node more; `next` is the new prevContext. */
  predicate OneMore(s: ContextList, t: ContextList, next: Link)
  {
    |t.nodes| == |s.nodes| + 1 && LinkIn(next, |t.nodes|) && Extends(s, t)
  }

  /** One node more, counted, with the contexts of the others kept; `next` is the new prevContext. */
  predicate AddedOne(s: ContextList, t: ContextList, next: Link)
  {
    && |t.nodes| == |s.nodes| + 1 && t.numProcessors == Add32(s.numProcessors, 1)
    && LinkIn(next, |t.nodes|) && Grows(s, t)
  }

  /** A node as allocated: raw2dump's zeroed (its Flink null), the offline tool's from malloc (its Flink never written). */
  function NewNode(tool: Tool): (n: CpuNode)
    ensures |n.context| == SDI_CPU_CONTEXT_SIZE as nat
  {
    CpuNode(ZeroContext(), if tool == Raw2Dump then Null else Unset)
  }

  /** An SDI dump buffer before anything is read into it. */
  function ZeroContext(): (c: seq<u8>)
    ensures |c| == SDI_CPU_CONTEXT_SIZE as nat
  {
    seq(SDI_CPU_CONTEXT_SIZE, _ => 0)
  }

  /** The linking both copies do, through the prevContext of the current call. */
  function AddFrameLocal(tool: Tool, s: ContextList, prev: Link, context: seq<u8>): (r: Option<(ContextList, Link)>)
    requires LinkIn(prev, |s.nodes|) && LinkIn(s.end, |s.nodes|)
    ensures r.Some? ==> OneMore(s, r.value.0, r.value.1)
    ensures r.None? <==> tool == Raw2Dump && s.numProcessors != 0 && !prev.Node?
  {
    var k := |s.nodes|;
    var nodes := s.nodes + [NewNode(tool)];
    var count := Add32(s.numProcessors, 1);
    var p := if s.numProcessors == 0 then Node(k) else prev;
    var head := if s.numProcessors == 0 then Node(k) else s.head;
    if p.Node? then Some((ContextList(LinkLast(nodes, p.index, context), head, s.end, count), Node(k)))
    else if tool == Raw2Dump then None
    else Some((ContextList(nodes, head, s.end, count), p))
  }

  /** The corrected linking, through the list's end. */
  function AddAtEnd(tool: Tool, s: ContextList, context: seq<u8>): (t: ContextList)
    requires LinkIn(s.end, |s.nodes|)
    ensures OneMore(s, t, t.end) && t.end == Node(|s.nodes|)
  {
    var k := |s.nodes|;
    var nodes := s.nodes + [NewNode(tool)];
    var count := Add32(s.numProcessors, 1);
    if s.end.Node? then ContextList(LinkLast(nodes, s.end.index, context), s.head, Node(k), count)
    else ContextList(nodes[k := nodes[k].(context := context)], Node(k), Node(k), count)
  }

  /** `nodes` with node `from` leading to the last node, and the last node holding `context`. */
  function LinkLast(nodes: seq<CpuNode>, from: nat, context: seq<u8>): (r: seq<CpuNode>)
    requires from < |nodes|
    ensures |r| == |nodes|
  {
    var k := |nodes| - 1;
    var linked := nodes[from := nodes[from].(flink := Node(k))];
    linked[k := linked[k].(context := context)]
  }

  lemma LinkLastKeeps(nodes: seq<CpuNode>, from: nat, context: seq<u8>)
    requires from < |nodes|
    ensures var r := LinkLast(nodes, from, context);
            && r[from].flink == Node(|nodes| - 1) && r[|nodes| - 1].context == context
            && (forall i :: 0 <= i < |nodes| - 1 ==> r[i].context == nodes[i].context)
            && (forall i :: 0 <= i < |nodes| && i != from ==> r[i].flink == nodes[i].flink)
  {
  }

  /** The frame-local linking adds one counted node and keeps the contexts of the others. */
  lemma FrameLocalAddsOne(tool: Tool, s: ContextList, prev: Link, context: seq<u8>)
    requires LinkIn(prev, |s.nodes|) && LinkIn(s.end, |s.nodes|)
    ensures var r := AddFrameLocal(tool, s, prev, context);
            r.Some? ==> AddedOne(s, r.value.0, r.value.1)
  {
    CountStep(|s.nodes|, s.numProcessors);
    var p := if s.numProcessors == 0 then Node(|s.nodes|) else prev;
    if p.Node? {
      LinkLastKeeps(s.nodes + [NewNode(tool)], p.index, context);
    }
  }

  /** Linking at the end adds one counted node holding `context`, keeps the others' contexts, and keeps the chain. */
  lemma AtEndAddsOne(tool: Tool, s: ContextList, context: seq<u8>)
    requires LinkIn(s.end, |s.nodes|)
    ensures var t := AddAtEnd(tool, s, context);
            && AddedOne(s, t, t.end) && t.nodes[|s.nodes|].context == context
            && (Chained(s) ==> Chained(t))
  {
    CountStep(|s.nodes|, s.numProcessors);
    if s.end.Node? {
      LinkLastKeeps(s.nodes + [NewNode(tool)], s.end.index, context);
    }
  }

  /** Adding a node for a CPU context adds one counted node and keeps the others; linking at the end keeps the chain. */
  lemma AddCpuNodeAddsOne(env: WalkEnv, s: ContextList, prev: Link, entryAddress: u64)
    requires EnvOk(env) && LinkIn(prev, |s.nodes|) && LinkIn(s.end, |s.nodes|)
    ensures var r := AddCpuNode(env, s, prev, entryAddress);
            && (r.Some? ==> AddedOne(s, r.value.0, r.value.1))
            && (env.linking == ListEnd && Chained(s) ==> Chained(r.value.0))
  {
    var context := CpuContextAt(env, entryAddress);
    match env.linking
    case FrameLocal => FrameLocalAddsOne(env.tool, s, prev, context);
    case ListEnd => AtEndAddsOne(env.tool, s, context);
  }

  lemma CountStep(n: nat, c: u32)
    ensures c as int == n % U32_LIMIT ==> Add32(c, 1) as int == (n + 1) % U32_LIMIT
  {
  }

  /**
   * parseDumpTable at `address`, from list state s. A header that does not
   * read or carries a version the tool does not accept is E_FAIL with the
   * list unchanged. Otherwise each entry of the table is visited in order: a
   * TABLE entry is walked in turn (its HRESULT ignored), a CPU-context DATA
   * entry adds a node, anything else is skipped; the walk is S_OK. `fuel`
   * bounds the nesting of tables.
   */
  function Walk(env: WalkEnv, address: u64, fuel: nat, s: ContextList): (r: (WalkOutcome, ContextList))
    requires EnvOk(env) && LinkIn(s.end, |s.nodes|)
    ensures Extends(s, r.1)
    ensures r.0 == Done(E_FAIL) <==> TableAt(env, address).None?
    ensures r.0 == Done(E_FAIL) ==> r.1 == s
    ensures r.0.Done? ==> r.0.hr == S_OK || r.0.hr == E_FAIL
    decreases fuel, 1
  {
    match TableAt(env, address)
    case None => (Done(E_FAIL), s)
    case Some(table) => if |table| < 8 then (Fault, s) else WalkEntries(env, table, 0, Null, fuel, s)
  }

  /** The loop of parseDumpTable from entry `index`, with prevContext `prev`. */
  function WalkEntries(env: WalkEnv, table: seq<u8>, index: nat, prev: Link, fuel: nat, s: ContextList)
    : (r: (WalkOutcome, ContextList))
    requires EnvOk(env) && |table| >= 8 && LinkIn(prev, |s.nodes|) && LinkIn(s.end, |s.nodes|)
    ensures Extends(s, r.1)
    ensures r.0.Done? ==> r.0.hr == S_OK
    decreases fuel, 0, NumEntries(table) as int - index
  {
    if index >= NumEntries(table) as nat then (Done(S_OK), s)
    else if !EntryInBuffer(table, index) then (Fault, s)
    else if EntryType(table, index) == MSM_DUMP_TYPE_TABLE then
      if fuel == 0 then (OutOfDepth, s)
      else
        var inner := Walk(env, EntryAddress(table, index), fuel - 1, s);
        if !inner.0.Done? then inner
        else WalkEntries(env, table, index + 1, prev, fuel, inner.1)
    else if IsCpuContextEntry(table, index) then
      match AddCpuNode(env, s, prev, EntryAddress(table, index))
      case None => (Fault, s)
      case Some(step) => WalkEntries(env, table, index + 1, step.1, fuel, step.0)
    else WalkEntries(env, table, index + 1, prev, fuel, s)
  }

  // Unfoldings of the walk, one step each.

  lemma WalkAt(env: WalkEnv, address: u64, table: seq<u8>, fuel: nat, s: ContextList)
    requires EnvOk(env) && LinkIn(s.end, |s.nodes|)
    requires TableAt(env, address) == Some(table) && |table| >= 8
    ensures Walk(env, address, fuel, s) == WalkEntries(env, table, 0, Null, fuel, s)
  {
  }

  lemma EntriesEnd(env: WalkEnv, table: seq<u8>, index: nat, prev: Link, fuel: nat, s: ContextList)
    requires EnvOk(env) && |table| >= 8 && LinkIn(prev, |s.nodes|) && LinkIn(s.end, |s.nodes|)
    requires index >= NumEntries(table) as nat
    ensures WalkEntries(env, table, index, prev, fuel, s) == (Done(S_OK), s)
  {
  }

  lemma CpuEntryStep(env: WalkEnv, table: seq<u8>, index: nat, prev: Link, fuel: nat, s: ContextList)
    requires EnvOk(env) && |table| >= 8 && LinkIn(prev, |s.nodes|) && LinkIn(s.end, |s.nodes|)
    requires index < NumEntries(table) as nat && EntryInBuffer(table, index) && IsCpuContextEntry(table, index)
    ensures var a := AddCpuNode(env, s, prev, EntryAddress(table, index));
            WalkEntries(env, table, index, prev, fuel, s)
            == if a.None? then (Fault, s) else WalkEntries(env, table, index + 1, a.value.1, fuel, a.value.0)
  {
  }

  lemma TableEntryStep(env: WalkEnv, table: seq<u8>, index: nat, prev: Link, fuel: nat, s: ContextList)
    requires EnvOk(env) && |table| >= 8 && LinkIn(prev, |s.nodes|) && LinkIn(s.end, |s.nodes|)
    requires index < NumEntries(table) as nat && EntryInBuffer(table, index)
    requires EntryType(table, index) == MSM_DUMP_TYPE_TABLE && fuel >= 1
    ensures var inner := Walk(env, EntryAddress(table, index), fuel - 1, s);
            WalkEntries(env, table, index, prev, fuel, s)
            == if !inner.0.Done? then inner else WalkEntries(env, table, index + 1, prev, fuel, inner.1)
  {
  }

  /**
   * A walk only adds nodes, counts them, and keeps the SDI dumps already
   * listed; linking at the end keeps the list chained from head to end.
   */
  lemma {:induction false} WalkGrows(env: WalkEnv, address: u64, fuel: nat, s: ContextList)
    requires EnvOk(env) && LinkIn(s.end, |s.nodes|)
    ensures var r := Walk(env, address, fuel, s);
            Grows(s, r.1) && (env.linking == ListEnd && Chained(s) ==> Chained(r.1))
    decreases fuel, 1
  {
    match TableAt(env, address)
    case None =>
    case Some(table) =>
      if |table| >= 8 {
        WalkAt(env, address, table, fuel, s);
        EntriesGrow(env, table, 0, Null, fuel, s);
      }
  }

  lemma {:induction false} EntriesGrow(env: WalkEnv, table: seq<u8>, index: nat, prev: Link, fuel: nat, s: ContextList)
    requires EnvOk(env) && |table| >= 8 && LinkIn(prev, |s.nodes|) && LinkIn(s.end, |s.nodes|)
    ensures var r := WalkEntries(env, table, index, prev, fuel, s);
            Grows(s, r.1) && (env.linking == ListEnd && Chained(s) ==> Chained(r.1))
    decreases fuel, 0, NumEntries(table) as int - index, 1
  {
    if index >= NumEntries(table) as nat {
      EntriesEnd(env, table, index, prev, fuel, s);
    } else if !EntryInBuffer(table, index) {
    } else if EntryType(table, index) == MSM_DUMP_TYPE_TABLE {
      if fuel >= 1 {
        TableEntryGrows(env, table, index, prev, fuel, s);
      }
    } else if IsCpuContextEntry(table, index) {
      CpuEntryGrows(env, table, index, prev, fuel, s);
    } else {
      EntriesGrow(env, table, index + 1, prev, fuel, s);
    }
  }

  lemma {:induction false} TableEntryGrows(env: WalkEnv, table: seq<u8>, index: nat, prev: Link, fuel: nat, s: ContextList)
    requires EnvOk(env) && |table| >= 8 && LinkIn(prev, |s.nodes|) && LinkIn(s.end, |s.nodes|)
    requires index < NumEntries(table) as nat && EntryInBuffer(table, index)
    requires EntryType(table, index) == MSM_DUMP_TYPE_TABLE && fuel >= 1
    ensures var r := WalkEntries(env, table, index, prev, fuel, s);
            Grows(s, r.1) && (env.linking == ListEnd && Chained(s) ==> Chained(r.1))
    decreases fuel, 0, NumEntries(table) as int - index, 0
  {
    TableEntryStep(env, table, index, prev, fuel, s);
    var inner := Walk(env, EntryAddress(table, index), fuel - 1, s);
    WalkGrows(env, EntryAddress(table, index), fuel - 1, s);
    if inner.0.Done? {
      EntriesGrow(env, table, index + 1, prev, fuel, inner.1);
      GrowsTrans(s, inner.1, WalkEntries(env, table, index + 1, prev, fuel, inner.1).1);
    }
  }

  lemma {:induction false} CpuEntryGrows(env: WalkEnv, table: seq<u8>, index: nat, prev: Link, fuel: nat, s: ContextList)
    requires EnvOk(env) && |table| >= 8 && LinkIn(prev, |s.nodes|) && LinkIn(s.end, |s.nodes|)
    requires index < NumEntries(table) as nat && EntryInBuffer(table, index) && IsCpuContextEntry(table, index)
    ensures var r := WalkEntries(env, table, index, prev, fuel, s);
            Grows(s, r.1) && (env.linking == ListEnd && Chained(s) ==> Chained(r.1))
    decreases fuel, 0, NumEntries(table) as int - index, 0
  {
    CpuEntryStep(env, table, index, prev, fuel, s);
    AddCpuNodeAddsOne(env, s, prev, EntryAddress(table, index));
    var a := AddCpuNode(env, s, prev, EntryAddress(table, index));
    if a.Some? {
      EntriesGrow(env, table, index + 1, a.value.1, fuel, a.value.0);
    }
  }

  // ------------------------------------------- a table without nesting

  /** The whole table lies in its buffer. */
  predicate WholeTable(table: seq<u8>)
  {
    |table| >= 8 && EntryOffset(NumEntries(table) as nat) <= |table|
  }

  /** No entry from `index` on is a TABLE. */
  predicate FlatFrom(table: seq<u8>, index: nat)
    requires WholeTable(table)
  {
    forall k :: index <= k < NumEntries(table) as nat ==> EntryType(table, k) != MSM_DUMP_TYPE_TABLE
  }

  /** The SDI dumps of the CPU-context entries from `index` on, in entry order. */
  function ListedContexts(env: WalkEnv, table: seq<u8>, index: nat): seq<seq<u8>>
    requires EnvOk(env) && WholeTable(table)
    decreases NumEntries(table) as int - index
  {
    if index >= NumEntries(table) as nat then []
    else (if IsCpuContextEntry(table, index) then [CpuContextAt(env, EntryAddress(table, index))] else [])
         + ListedContexts(env, table, index + 1)
  }

  function Contexts(nodes: seq<CpuNode>): (c: seq<seq<u8>>)
    ensures |c| == |nodes| && forall i :: 0 <= i < |nodes| ==> c[i] == nodes[i].context
  {
    seq(|nodes|, i requires 0 <= i < |nodes| => nodes[i].context)
  }

  /** The prevContext of a call that has linked every node so far. */
  function LastOf(s: ContextList): Link
  {
    if s.nodes == [] then Null else Node(|s.nodes| - 1)
  }

  /**
   * The list as one call of parseDumpTable leaves it: numProcressors is the
   * node count, the head is the first node and each node leads to the next;
   * a lone node leads to itself, and otherwise the last node keeps the Flink
   * it was allocated with.
   */
  predicate FrameList(s: ContextList, tool: Tool)
  {
    && s.numProcessors as nat == |s.nodes| && LinkIn(s.end, |s.nodes|)
    && (s.nodes != [] ==> s.head == Node(0))
    && (forall i :: 0 <= i < |s.nodes| - 1 ==> s.nodes[i].flink == Node(i + 1))
    && (|s.nodes| == 1 ==> s.nodes[0].flink == Node(0))
    && (|s.nodes| >= 2 ==> s.nodes[|s.nodes| - 1].flink == NewNode(tool).flink)
  }

  /** The list holds the SDI dumps of `contexts`, in order, linked as one call of parseDumpTable links them. */
  predicate ListsInOrder(s: ContextList, tool: Tool, contexts: seq<seq<u8>>)
  {
    FrameList(s, tool) && Contexts(s.nodes) == contexts
  }

  lemma FrameStep(tool: Tool, s: ContextList, context: seq<u8>)
    requires FrameList(s, tool) && |s.nodes| + 1 < U32_LIMIT
    ensures var r := AddFrameLocal(tool, s, LastOf(s), context);
            && r.Some? && r.value.1 == LastOf(r.value.0)
            && ListsInOrder(r.value.0, tool, Contexts(s.nodes) + [context])
  {
    var t := AddFrameLocal(tool, s, LastOf(s), context).value.0;
    assert Contexts(t.nodes) == Contexts(s.nodes) + [context];
  }

  /** One CPU-context entry of the loop, linked after LastOf(s). */
  lemma FlatCpuStep(env: WalkEnv, table: seq<u8>, index: nat, fuel: nat, s: ContextList)
    requires EnvOk(env) && env.linking == FrameLocal && WholeTable(table)
    requires index < NumEntries(table) as nat && IsCpuContextEntry(table, index)
    requires FrameList(s, env.tool) && |s.nodes| + 1 < U32_LIMIT
    ensures var context := CpuContextAt(env, EntryAddress(table, index));
            var t := AddFrameLocal(env.tool, s, LastOf(s), context).value.0;
            && ListsInOrder(t, env.tool, Contexts(s.nodes) + [context])
            && WalkEntries(env, table, index, LastOf(s), fuel, s) == WalkEntries(env, table, index + 1, LastOf(t), fuel, t)
            && ListedContexts(env, table, index) == [context] + ListedContexts(env, table, index + 1)
  {
    var context := CpuContextAt(env, EntryAddress(table, index));
    FrameStep(env.tool, s, context);
    CpuEntryStep(env, table, index, LastOf(s), fuel, s);
  }

  /** Any other entry of the loop is skipped. */
  lemma FlatOtherStep(env: WalkEnv, table: seq<u8>, index: nat, prev: Link, fuel: nat, s: ContextList)
    requires EnvOk(env) && WholeTable(table) && LinkIn(prev, |s.nodes|) && LinkIn(s.end, |s.nodes|)
    requires index < NumEntries(table) as nat && !IsCpuContextEntry(table, index)
    requires EntryType(table, index) != MSM_DUMP_TYPE_TABLE
    ensures WalkEntries(env, table, index, prev, fuel, s) == WalkEntries(env, table, index + 1, prev, fuel, s)
    ensures ListedContexts(env, table, index) == ListedContexts(env, table, index + 1)
  {
  }

  /** What the walk of a table without nested tables gives from entry `index` and list state s. */
  predicate FlatResult(env: WalkEnv, table: seq<u8>, index: nat, fuel: nat, s: ContextList)
    requires EnvOk(env) && WholeTable(table) && LinkIn(s.end, |s.nodes|)
  {
    var r := WalkEntries(env, table, index, LastOf(s), fuel, s);
    r.0 == Done(S_OK) && ListsInOrder(r.1, env.tool, Contexts(s.nodes) + ListedContexts(env, table, index))
  }

  /** Entry `index` takes list state s to t, and the contexts still to list are the same. */
  predicate FlatStepTo(env: WalkEnv, table: seq<u8>, index: nat, fuel: nat, s: ContextList, t: ContextList)
    requires EnvOk(env) && WholeTable(table) && LinkIn(s.end, |s.nodes|) && LinkIn(t.end, |t.nodes|)
  {
    && WalkEntries(env, table, index, LastOf(s), fuel, s) == WalkEntries(env, table, index + 1, LastOf(t), fuel, t)
    && Contexts(s.nodes) + ListedContexts(env, table, index) == Contexts(t.nodes) + ListedContexts(env, table, index + 1)
  }

  /** A CPU-context entry adds one node to a list linked in order. */
  lemma FlatCpuNext(env: WalkEnv, table: seq<u8>, index: nat, fuel: nat, s: ContextList) returns (t: ContextList)
    requires EnvOk(env) && env.linking == FrameLocal && WholeTable(table)
    requires index < NumEntries(table) as nat && IsCpuContextEntry(table, index)
    requires FrameList(s, env.tool) && |s.nodes| + 1 < U32_LIMIT
    ensures FrameList(t, env.tool) && |t.nodes| == |s.nodes| + 1
    ensures FlatStepTo(env, table, index, fuel, s, t)
  {
    var context := CpuContextAt(env, EntryAddress(table, index));
    FlatCpuStep(env, table, index, fuel, s);
    t := AddFrameLocal(env.tool, s, LastOf(s), context).value.0;
    var rest := ListedContexts(env, table, index + 1);
    assert Contexts(t.nodes) + rest == Contexts(s.nodes) + ListedContexts(env, table, index) by {
      assert (Contexts(s.nodes) + [context]) + rest == Contexts(s.nodes) + ([context] + rest);
    }
  }

  /** Entry `index` is a CPU context: one node more, then the rest of the loop. */
  lemma {:induction false} FlatCpuCase(env: WalkEnv, table: seq<u8>, index: nat, fuel: nat, s: ContextList)
    requires EnvOk(env) && env.linking == FrameLocal && WholeTable(table) && FlatFrom(table, index)
    requires index < NumEntries(table) as nat && IsCpuContextEntry(table, index)
    requires FrameList(s, env.tool) && |s.nodes| + NumEntries(table) as int - index < U32_LIMIT
    ensures FlatResult(env, table, index, fuel, s)
    decreases NumEntries(table) as int - index, 0
  {
    var t := FlatCpuNext(env, table, index, fuel, s);
    FlatEntriesInOrder(env, table, index + 1, fuel, t);
  }

  /** Entry `index` is neither a table nor a CPU context: the rest of the loop. */
  lemma {:induction false} FlatOtherCase(env: WalkEnv, table: seq<u8>, index: nat, fuel: nat, s: ContextList)
    requires EnvOk(env) && env.linking == FrameLocal && WholeTable(table) && FlatFrom(table, index)
    requires index < NumEntries(table) as nat && !IsCpuContextEntry(table, index)
    requires FrameList(s, env.tool) && |s.nodes| + NumEntries(table) as int - index < U32_LIMIT
    ensures FlatResult(env, table, index, fuel, s)
    decreases NumEntries(table) as int - index, 0
  {
    FlatOtherStep(env, table, index, LastOf(s), fuel, s);
    FlatEntriesInOrder(env, table, index + 1, fuel, s);
  }

  lemma FlatEndCase(env: WalkEnv, table: seq<u8>, index: nat, fuel: nat, s: ContextList)
    requires EnvOk(env) && WholeTable(table) && index >= NumEntries(table) as nat && FrameList(s, env.tool)
    ensures FlatResult(env, table, index, fuel, s)
  {
    EntriesEnd(env, table, index, LastOf(s), fuel, s);
    assert ListedContexts(env, table, index) == [];
    assert Contexts(s.nodes) + [] == Contexts(s.nodes);
  }

  /** The loop over a table without nested tables, from entry `index`. */
  lemma {:induction false} FlatEntriesInOrder(env: WalkEnv, table: seq<u8>, index: nat, fuel: nat, s: ContextList)
    requires EnvOk(env) && env.linking == FrameLocal && WholeTable(table) && FlatFrom(table, index)
    requires FrameList(s, env.tool) && |s.nodes| + NumEntries(table) as int - index < U32_LIMIT
    ensures FlatResult(env, table, index, fuel, s)
    decreases NumEntries(table) as int - index, 1
  {
    if index >= NumEntries(table) as nat {
      FlatEndCase(env, table, index, fuel, s);
    } else if IsCpuContextEntry(table, index) {
      FlatCpuCase(env, table, index, fuel, s);
    } else {
      FlatOtherCase(env, table, index, fuel, s);
    }
  }

  /**
   * A table without nested tables lists its CPU contexts in entry order, in
   * both copies: numProcressors is their number, the head is the first, each
   * node's Flink is the next node, a lone node's Flink points to itself, and
   * otherwise the last node's Flink is the one it was allocated with: null
   * in raw2dump, never written in the offline dump tool.
   */
  lemma FlatTableInOrder(env: WalkEnv, address: u64, table: seq<u8>, fuel: nat)
    requires EnvOk(env) && env.linking == FrameLocal
    requires TableAt(env, address) == Some(table) && WholeTable(table) && FlatFrom(table, 0)
    ensures var r := Walk(env, address, fuel, EmptyList());
            r.0 == Done(S_OK) && ListsInOrder(r.1, env.tool, ListedContexts(env, table, 0))
  {
    assert Contexts([]) + ListedContexts(env, table, 0) == ListedContexts(env, table, 0);
    FlatEntriesInOrder(env, table, 0, fuel, EmptyList());
    assert FlatResult(env, table, 0, fuel, EmptyList());
    WalkAt(env, address, table, fuel, EmptyList());
  }

  // ---------------------------------------------------------- findings

  /**
   * A table at `address` whose first entry is a CPU context and whose second
   * is a table holding one more CPU context.
   */
  predicate NestedCpuTables(env: WalkEnv, address: u64, outer: seq<u8>, inner: seq<u8>)
    requires EnvOk(env)
  {
    && TableAt(env, address) == Some(outer) && |outer| >= 104 && NumEntries(outer) == 2
    && IsCpuContextEntry(outer, 0) && EntryType(outer, 1) == MSM_DUMP_TYPE_TABLE
    && TableAt(env, EntryAddress(outer, 1)) == Some(inner) && |inner| >= 56 && NumEntries(inner) == 1
    && IsCpuContextEntry(inner, 0)
  }

  /** The walk of a table holding just one CPU-context entry. */
  lemma OneCpuTable(env: WalkEnv, address: u64, table: seq<u8>, fuel: nat, s: ContextList)
    requires EnvOk(env) && LinkIn(s.end, |s.nodes|)
    requires TableAt(env, address) == Some(table) && |table| >= 56 && NumEntries(table) == 1
    requires IsCpuContextEntry(table, 0)
    ensures var a := AddCpuNode(env, s, Null, EntryAddress(table, 0));
            Walk(env, address, fuel, s) == if a.None? then (Fault, s) else (Done(S_OK), a.value.0)
  {
    var a := AddCpuNode(env, s, Null, EntryAddress(table, 0));
    if a.Some? {
      EntriesEnd(env, table, 1, a.value.1, fuel, a.value.0);
    }
    CpuEntryStep(env, table, 0, Null, fuel, s);
    WalkAt(env, address, table, fuel, s);
  }

  /** The walk of the outer table of NestedCpuTables. */
  lemma NestedOuterTable(env: WalkEnv, address: u64, outer: seq<u8>, inner: seq<u8>, fuel: nat, s: ContextList)
    requires EnvOk(env) && LinkIn(s.end, |s.nodes|)
    requires NestedCpuTables(env, address, outer, inner) && fuel >= 1
    ensures var a := AddCpuNode(env, s, Null, EntryAddress(outer, 0));
            a.Some? ==>
              var w := Walk(env, EntryAddress(outer, 1), fuel - 1, a.value.0);
              Walk(env, address, fuel, s) == if !w.0.Done? then w else (Done(S_OK), w.1)
  {
    var a := AddCpuNode(env, s, Null, EntryAddress(outer, 0));
    if a.Some? {
      var w := Walk(env, EntryAddress(outer, 1), fuel - 1, a.value.0);
      if w.0.Done? {
        EntriesEnd(env, outer, 2, a.value.1, fuel, w.1);
      }
      TableEntryStep(env, outer, 1, a.value.1, fuel, a.value.0);
      CpuEntryStep(env, outer, 0, Null, fuel, s);
      WalkAt(env, address, outer, fuel, s);
    }
  }

  /** With FrameLocal linking the first node becomes the head and prevContext, and leads to itself. */
  lemma FirstNodeFrameLocal(env: WalkEnv, entryAddress: u64)
    requires EnvOk(env) && env.linking == FrameLocal
    ensures AddCpuNode(env, EmptyList(), Null, entryAddress)
            == Some((ContextList([CpuNode(CpuContextAt(env, entryAddress), Node(0))], Node(0), Null, 1), Node(0)))
  {
    var r := AddCpuNode(env, EmptyList(), Null, entryAddress);
    assert r.value.0.nodes == [CpuNode(CpuContextAt(env, entryAddress), Node(0))];
  }

  lemma AddCpuNodeAtEnd(env: WalkEnv, s: ContextList, prev: Link, entryAddress: u64)
    requires EnvOk(env) && env.linking == ListEnd && LinkIn(prev, |s.nodes|) && LinkIn(s.end, |s.nodes|)
    ensures AddCpuNode(env, s, prev, entryAddress) == Some((AddAtEnd(env.tool, s, CpuContextAt(env, entryAddress)), prev))
  {
  }

  /** Two nodes linked at the end of an empty list. */
  lemma TwoAtEnd(tool: Tool, c0: seq<u8>, c1: seq<u8>)
    ensures var s1 := AddAtEnd(tool, EmptyList(), c0);
            && s1 == ContextList([CpuNode(c0, NewNode(tool).flink)], Node(0), Node(0), 1)
            && AddAtEnd(tool, s1, c1)
               == ContextList([CpuNode(c0, Node(1)), CpuNode(c1, NewNode(tool).flink)], Node(0), Node(1), 2)
  {
    var s1 := AddAtEnd(tool, EmptyList(), c0);
    assert s1.nodes == [CpuNode(c0, NewNode(tool).flink)];
    assert AddAtEnd(tool, s1, c1).nodes == [CpuNode(c0, Node(1)), CpuNode(c1, NewNode(tool).flink)];
  }

  /**
   * In raw2dump the nested call starts with a null prevContext while
   * numProcressors is already 1, so linking its CPU context writes through
   * a null pointer.
   */
  lemma {:induction false} NestedTableFaultsAsWritten(env: WalkEnv, address: u64, outer: seq<u8>, inner: seq<u8>, fuel: nat)
    requires EnvOk(env) && env.tool == Raw2Dump && env.linking == FrameLocal
    requires NestedCpuTables(env, address, outer, inner) && fuel >= 1
    ensures Walk(env, address, fuel, EmptyList()).0 == Fault
  {
    FirstNodeFrameLocal(env, EntryAddress(outer, 0));
    var s1 := AddCpuNode(env, EmptyList(), Null, EntryAddress(outer, 0)).value.0;
    assert AddCpuNode(env, s1, Null, EntryAddress(inner, 0)).None?;
    OneCpuTable(env, EntryAddress(outer, 1), inner, fuel - 1, s1);
    NestedOuterTable(env, address, outer, inner, fuel, EmptyList());
  }

  /**
   * The offline dump tool's guard avoids the null write, but the nested
   * CPU's node is counted without being linked or filled: numProcressors is
   * 2 while the head's Flink leads back to the head.
   */
  lemma {:induction false} NestedTableOrphansNodeAsWritten(env: WalkEnv, address: u64, outer: seq<u8>, inner: seq<u8>, fuel: nat)
    requires EnvOk(env) && env.tool == OffDumpTool && env.linking == FrameLocal
    requires NestedCpuTables(env, address, outer, inner) && fuel >= 1
    ensures var r := Walk(env, address, fuel, EmptyList());
            && r.0 == Done(S_OK) && r.1.numProcessors == 2 && |r.1.nodes| == 2
            && r.1.head == Node(0) && r.1.nodes[0].flink == Node(0)
            && r.1.nodes[1].context == ZeroContext()
  {
    FirstNodeFrameLocal(env, EntryAddress(outer, 0));
    var s1 := AddCpuNode(env, EmptyList(), Null, EntryAddress(outer, 0)).value.0;
    var second := AddCpuNode(env, s1, Null, EntryAddress(inner, 0));
    assert second == Some((ContextList(s1.nodes + [NewNode(OffDumpTool)], Node(0), Null, 2), Null));
    OneCpuTable(env, EntryAddress(outer, 1), inner, fuel - 1, s1);
    NestedOuterTable(env, address, outer, inner, fuel, EmptyList());
  }

  /** With ListEnd linking, the walk of a table holding just one CPU-context entry links it at the end. */
  lemma OneCpuTableAtEnd(env: WalkEnv, address: u64, table: seq<u8>, fuel: nat, s: ContextList)
    requires EnvOk(env) && env.linking == ListEnd && LinkIn(s.end, |s.nodes|)
    requires TableAt(env, address) == Some(table) && |table| >= 56 && NumEntries(table) == 1
    requires IsCpuContextEntry(table, 0)
    ensures Walk(env, address, fuel, s) == (Done(S_OK), AddAtEnd(env.tool, s, CpuContextAt(env, EntryAddress(table, 0))))
  {
    AddCpuNodeAtEnd(env, s, Null, EntryAddress(table, 0));
    OneCpuTable(env, address, table, fuel, s);
  }

  /** The list after the outer CPU context of NestedCpuTables, linked at the end. */
  function FirstAtEnd(env: WalkEnv, outer: seq<u8>): ContextList
    requires EnvOk(env) && |outer| >= 56
  {
    AddAtEnd(env.tool, EmptyList(), CpuContextAt(env, EntryAddress(outer, 0)))
  }

  /** With ListEnd linking the walk of the outer table is the walk of the inner one after the first node. */
  lemma OuterTableAtEnd(env: WalkEnv, address: u64, outer: seq<u8>, inner: seq<u8>, fuel: nat)
    requires EnvOk(env) && env.linking == ListEnd
    requires NestedCpuTables(env, address, outer, inner) && fuel >= 1
    ensures Walk(env, address, fuel, EmptyList()) == Walk(env, EntryAddress(outer, 1), fuel - 1, FirstAtEnd(env, outer))
  {
    AddCpuNodeAtEnd(env, EmptyList(), Null, EntryAddress(outer, 0));
    OneCpuTableAtEnd(env, EntryAddress(outer, 1), inner, fuel - 1, FirstAtEnd(env, outer));
    NestedOuterTable(env, address, outer, inner, fuel, EmptyList());
  }

  /**
   * Linking through the list's end, the same tables give both CPUs in
   * order, each holding its own SDI dump: numProcressors is 2, the head is
   * the outer CPU's node, its Flink the inner CPU's node, which is the end.
   */
  lemma {:induction false} NestedTableChainsAtEnd(env: WalkEnv, address: u64, outer: seq<u8>, inner: seq<u8>, fuel: nat)
    requires EnvOk(env) && env.linking == ListEnd
    requires NestedCpuTables(env, address, outer, inner) && fuel >= 1
    ensures Walk(env, address, fuel, EmptyList())
            == (Done(S_OK), ContextList([CpuNode(CpuContextAt(env, EntryAddress(outer, 0)), Node(1)),
                                         CpuNode(CpuContextAt(env, EntryAddress(inner, 0)), NewNode(env.tool).flink)],
                                        Node(0), Node(1), 2))
  {
    TwoAtEnd(env.tool, CpuContextAt(env, EntryAddress(outer, 0)), CpuContextAt(env, EntryAddress(inner, 0)));
    OneCpuTableAtEnd(env, EntryAddress(outer, 1), inner, fuel - 1, FirstAtEnd(env, outer));
    OuterTableAtEnd(env, address, outer, inner, fuel);
  }

  // ------------------------------------------------------ the program

  /** parseDumpData. */
  method ParseDumpData(env: WalkEnv, ctx: DmpContext, rawFile: seq<u8>, entryAddress: u64) returns (context: seq<u8>)
    requires ReadsDdr(env, ctx, rawFile)
    ensures context == CpuContextAt(env, entryAddress)
  {
    var _, data := ReadBlock(ctx, entryAddress, DUMP_DATA_SIZE, rawFile);
    var _, cpu := ReadBlock(ctx, U64At(data, 40), SDI_CPU_CONTEXT_SIZE, rawFile);
    context := cpu;
  }

  /** The global CPUContext64List, its nodes indexed by allocation order. */
  class CpuContextList {
    var nodes: seq<CpuNode>
    var listHead: Link
    var listEnd: Link
    var numProcessors: u32

    function State(): ContextList
      reads this
    {
      ContextList(nodes, listHead, listEnd, numProcessors)
    }

    constructor ()
      ensures State() == EmptyList()
    {
      nodes := [];
      listHead := Null;
      listEnd := Null;
      numProcessors := 0;
    }

    /** Links a new node holding `context` after prevContext; false is a write through a null prevContext. */
    method LinkFrameLocal(tool: Tool, prev: Link, context: seq<u8>) returns (ok: bool, next: Link)
      requires LinkIn(prev, |nodes|) && LinkIn(listEnd, |nodes|)
      modifies this
      ensures var r := AddFrameLocal(tool, old(State()), prev, context);
              && ok == r.Some?
              && (ok ==> State() == r.value.0 && next == r.value.1)
              && (!ok ==> State() == old(State()) && next == prev)
    {
      var k := |nodes|;
      var p := if numProcessors == 0 then Node(k) else prev;
      if !p.Node? && tool == Raw2Dump {
        return false, prev;
      }
      if numProcessors == 0 {
        listHead := Node(k);
      }
      nodes := nodes + [NewNode(tool)];
      if p.Node? {
        nodes := nodes[p.index := nodes[p.index].(flink := Node(k))];
        nodes := nodes[k := nodes[k].(context := context)];
        next := Node(k);
      } else {
        next := p;
      }
      numProcessors := Add32(numProcessors, 1);
      ok := true;
    }

    /** Links a new node holding `context` after the list's end. */
    method LinkAtEnd(tool: Tool, context: seq<u8>)
      requires LinkIn(listEnd, |nodes|)
      modifies this
      ensures State() == AddAtEnd(tool, old(State()), context)
    {
      var k := |nodes|;
      nodes := nodes + [NewNode(tool)];
      if listEnd.Node? {
        nodes := nodes[listEnd.index := nodes[listEnd.index].(flink := Node(k))];
      } else {
        listHead := Node(k);
      }
      nodes := nodes[k := nodes[k].(context := context)];
      listEnd := Node(k);
      numProcessors := Add32(numProcessors, 1);
    }

    /** Adds the node for the CPU-context entry at `entryAddress`; false is a null dereference. */
    method AddNode(env: WalkEnv, ctx: DmpContext, rawFile: seq<u8>, prev: Link, entryAddress: u64)
      returns (ok: bool, next: Link)
      requires ReadsDdr(env, ctx, rawFile) && LinkIn(prev, |nodes|) && LinkIn(listEnd, |nodes|)
      modifies this
      ensures var r := AddCpuNode(env, old(State()), prev, entryAddress);
              && ok == r.Some?
              && (ok ==> State() == r.value.0 && next == r.value.1)
              && (!ok ==> State() == old(State()) && next == prev)
    {
      var context := ParseDumpData(env, ctx, rawFile, entryAddress);
      match env.linking
      case FrameLocal =>
        ok, next := LinkFrameLocal(env.tool, prev, context);
      case ListEnd =>
        LinkAtEnd(env.tool, context);
        ok, next := true, prev;
    }

    /** parseDumpTable. */
    method ParseDumpTable(env: WalkEnv, ctx: DmpContext, rawFile: seq<u8>, address: u64, fuel: nat)
      returns (outcome: WalkOutcome)
      requires ReadsDdr(env, ctx, rawFile) && LinkIn(listEnd, |nodes|)
      modifies this
      ensures (outcome, State()) == Walk(env, address, fuel, old(State()))
      decreases fuel, 3
    {
      var status, header := ReadBlock(ctx, address, DUMP_TABLE_SIZE, rawFile);
      if !NtSuccess(status) || !VersionAccepted(env.tool, U32At(header, 0)) {
        return Done(E_FAIL);
      }
      var table := header;
      var numEntries := U32At(header, 4);
      if numEntries > 1 {
        var _, whole := ReadBlock(ctx, address, TableSize(numEntries), rawFile);
        table := whole;
      }
      assert TableAt(env, address) == Some(table);
      if |table| < 8 {
        return Fault;
      }
      outcome := ParseEntries(env, ctx, rawFile, table, fuel);
    }

    /** The loop of parseDumpTable over the entries of `table`. */
    method ParseEntries(env: WalkEnv, ctx: DmpContext, rawFile: seq<u8>, table: seq<u8>, fuel: nat)
      returns (outcome: WalkOutcome)
      requires ReadsDdr(env, ctx, rawFile) && |table| >= 8 && LinkIn(listEnd, |nodes|)
      modifies this
      ensures (outcome, State()) == WalkEntries(env, table, 0, Null, fuel, old(State()))
      decreases fuel, 2
    {
      var index: nat := 0;
      var prev := Null;
      while index < NumEntries(table) as nat
        invariant LinkIn(prev, |nodes|) && LinkIn(listEnd, |nodes|)
        invariant WalkEntries(env, table, index, prev, fuel, State()) == WalkEntries(env, table, 0, Null, fuel, old(State()))
        decreases NumEntries(table) as nat - index
      {
        var stop;
        stop, prev := ParseEntry(env, ctx, rawFile, table, index, prev, fuel);
        if stop.Some? {
          return stop.value;
        }
        index := index + 1;
      }
      EntriesEnd(env, table, index, prev, fuel, State());
      outcome := Done(S_OK);
    }

    /** One turn of that loop: the outcome when the walk stops at entry `index`, and the new prevContext. */
    method ParseEntry(env: WalkEnv, ctx: DmpContext, rawFile: seq<u8>, table: seq<u8>, index: nat, prev: Link, fuel: nat)
      returns (stop: Option<WalkOutcome>, next: Link)
      requires ReadsDdr(env, ctx, rawFile) && |table| >= 8 && index < NumEntries(table) as nat
      requires LinkIn(prev, |nodes|) && LinkIn(listEnd, |nodes|)
      modifies this
      ensures LinkIn(next, |nodes|) && LinkIn(listEnd, |nodes|)
      ensures var w := WalkEntries(env, table, index, prev, fuel, old(State()));
              if stop.Some? then (stop.value, State()) == w
              else WalkEntries(env, table, index + 1, next, fuel, State()) == w
      decreases fuel, 1
    {
      next := prev;
      if !EntryInBuffer(table, index) {
        return Some(Fault), next;
      }
      var entryAddress := EntryAddress(table, index);
      if EntryType(table, index) == MSM_DUMP_TYPE_TABLE {
        if fuel == 0 {
          return Some(OutOfDepth), next;
        }
        stop := ParseTableEntry(env, ctx, rawFile, table, index, prev, fuel);
      } else if IsCpuContextEntry(table, index) {
        CpuEntryStep(env, table, index, prev, fuel, State());
        var ok;
        ok, next := AddNode(env, ctx, rawFile, prev, entryAddress);
        stop := if ok then None else Some(Fault);
      } else {
        stop := None;
      }
    }

    /** The turn for a TABLE entry: the nested table is walked; the walk stops only on undefined behaviour. */
    method ParseTableEntry(env: WalkEnv, ctx: DmpContext, rawFile: seq<u8>, table: seq<u8>, index: nat, prev: Link, fuel: nat)
      returns (stop: Option<WalkOutcome>)
      requires ReadsDdr(env, ctx, rawFile) && |table| >= 8 && index < NumEntries(table) as nat
      requires EntryInBuffer(table, index) && EntryType(table, index) == MSM_DUMP_TYPE_TABLE && fuel >= 1
      requires LinkIn(prev, |nodes|) && LinkIn(listEnd, |nodes|)
      modifies this
      ensures LinkIn(prev, |nodes|) && LinkIn(listEnd, |nodes|)
      ensures var w := WalkEntries(env, table, index, prev, fuel, old(State()));
              if stop.Some? then (stop.value, State()) == w
              else WalkEntries(env, table, index + 1, prev, fuel, State()) == w
      decreases fuel, 0
    {
      ghost var s := State();
      TableEntryStep(env, table, index, prev, fuel, s);
      var inner := ParseDumpTable(env, ctx, rawFile, EntryAddress(table, index), fuel - 1);
      ghost var w := Walk(env, EntryAddress(table, index), fuel - 1, s);
      assert w == (inner, State());
      stop := if inner.Done? then None else Some(inner);
    }
  }
}
