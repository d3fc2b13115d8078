// The raw dump generator's command line (tools/makeRawDump/processArgs.cpp,
// processArgs.h): the table of switches, the search for a switch, the
// handler of each switch and the loop over argv. A handler receives the
// argument without its leading '/' or '-' and splits it with strtok(":"),
// the first token being the switch name itself.
module ProcessArgs {
  import opened Machine
  import opened Status
  import opened RawDumpDefs
  import opened MakeDumpDefs
  import opened CrtText
  import ProcessDdr

  /** The token parsing function of a row of the table. */
  datatype Handler =
    | FileSizeHandler | FileNameHandler | PartHandler | DdrHandler | DdrSizeHandler | DdrCountHandler
    | DdrOrderHandler | DdrProximityHandler | NumCoresHandler | NoPayloadHandler | NoApRegHandler

  /** PARAM_ROW: the switch name, the number of modifiers, and the handler (None for nullptr). */
  datatype ParamRow = ParamRow(paramStr: string, numArgs: nat, handler: Option<Handler>)

  /** parameterList. */
  const PARAMETER_LIST: seq<ParamRow> := [
    ParamRow("FileSize", 1, Some(FileSizeHandler)),
    ParamRow("FileName", 1, Some(FileNameHandler)),
    ParamRow("Partition", 0, Some(PartHandler)),
    ParamRow("Part", 0, Some(PartHandler)),
    ParamRow("DDR", 3, Some(DdrHandler)),
    ParamRow("DDRSize", 1, Some(DdrSizeHandler)),
    ParamRow("DDRCount", 1, Some(DdrCountHandler)),
    ParamRow("DDROrder", 1, Some(DdrOrderHandler)),
    ParamRow("DDROrd", 1, Some(DdrOrderHandler)),
    ParamRow("DDRProximity", 1, Some(DdrProximityHandler)),
    ParamRow("DDRProx", 1, Some(DdrProximityHandler)),
    ParamRow("NumCores", 1, Some(NumCoresHandler)),
    ParamRow("NoPayload", 0, Some(NoPayloadHandler)),
    ParamRow("NoApReg", 0, Some(NoApRegHandler)),
    ParamRow("NoSvData", 0, None),
    ParamRow("NoTzData", 0, None)
  ]

  const PARAMETER_COUNT: nat := 16

  lemma ParameterCount()
    ensures |PARAMETER_LIST| == PARAMETER_COUNT
  {
  }

  // ------------------------------------------------------------------ finding a switch

  /**
   * Row i describes the argument: its name is a case-insensitive prefix of
   * the argument, and the argument ends there or goes on with ':'.
   */
  predicate RowMatches(arg: string, i: nat)
    requires i < |PARAMETER_LIST|
  {
    var p := PARAMETER_LIST[i].paramStr;
    IPrefix(arg, p) && (|arg| == |p| || arg[|p|] == ':')
  }

  /** The row FindArgumentInParameterArray finds (the only one, by AtMostOneRowMatches), as a value. */
  ghost function FoundRow(arg: string): (r: Option<nat>)
    ensures r.None? <==> forall i :: 0 <= i < |PARAMETER_LIST| ==> !RowMatches(arg, i)
    ensures r.Some? ==> r.value < |PARAMETER_LIST| && RowMatches(arg, r.value)
  {
    if exists i :: 0 <= i < |PARAMETER_LIST| && RowMatches(arg, i) then
      var i :| 0 <= i < |PARAMETER_LIST| && RowMatches(arg, i);
      Some(i)
    else None
  }

  /**
   * FindArgumentInParameterArray: the first row that describes the
   * argument, or INVALID_UINT32 when none does.
   */
  method FindArgumentInParameterArray(arg: string) returns (ret: u32)
    ensures ret == INVALID_UINT32 <==> forall i :: 0 <= i < |PARAMETER_LIST| ==> !RowMatches(arg, i)
    ensures ret != INVALID_UINT32 ==>
              (ret < |PARAMETER_LIST| && RowMatches(arg, ret) && forall j :: 0 <= j < ret ==> !RowMatches(arg, j))
  {
    ret := INVALID_UINT32;
    var i := 0;
    while i < |PARAMETER_LIST|
      invariant 0 <= i <= |PARAMETER_LIST|
      invariant forall j :: 0 <= j < i ==> !RowMatches(arg, j)
    {
      var p := PARAMETER_LIST[i].paramStr;
      if IPrefix(arg, p) {
        if |arg| == |p| || arg[|p|] == ':' {
          assert RowMatches(arg, i);
          ret := i;
          return;
        }
      }
      i := i + 1;
    }
  }

  /**
   * The row of a name, decided by its length and the case-folded letters
   * at positions 0, 2 and 4, which tell the names of one length apart.
   */
  function RowOfName(s: string): int
  {
    if |s| == 3 then 4
    else if |s| == 4 then 3
    else if |s| == 6 then 8
    else if |s| == 12 then 9
    else if |s| == 7 then (if Lower(s[2]) == 'a' then 13 else if Lower(s[4]) == 'i' then 5 else 10)
    else if |s| == 9 then (if Lower(s[0]) == 'p' then 2 else 12)
    else if |s| == 8 then
      (if Lower(s[0]) == 'f' then (if Lower(s[4]) == 's' then 0 else 1)
       else if Lower(s[0]) == 'd' then (if Lower(s[4]) == 'o' then 6 else 7)
       else if Lower(s[2]) == 'm' then 11
       else if Lower(s[2]) == 's' then 14
       else 15)
    else -1
  }

  /** Two names of one length that fold to the same letters have the same row. */
  lemma SameFoldSameRow(s: string, q: string)
    requires |s| == |q| && forall k :: 0 <= k < |s| ==> Lower(s[k]) == Lower(q[k])
    ensures RowOfName(s) == RowOfName(q)
  {
    if |s| >= 5 {
      assert Lower(s[0]) == Lower(q[0]) && Lower(s[2]) == Lower(q[2]) && Lower(s[4]) == Lower(q[4]);
    }
  }

  /** A switch name: letters only, so never a ':'. */
  predicate Letters(s: string)
  {
    forall i :: 0 <= i < |s| ==> ('A' <= s[i] <= 'Z') || ('a' <= s[i] <= 'z')
  }

  predicate ParamNameOk(i: nat)
    requires i < |PARAMETER_LIST|
  {
    var p := PARAMETER_LIST[i].paramStr;
    0 < |p| && Letters(p) && RowOfName(p) == i
  }

  lemma ParamNamesBelow2(i: nat)
    requires i < 2
    ensures ParamNameOk(i)
  {
    if i == 0 {
    } else {
    }
  }

  lemma ParamNamesBelow4(i: nat)
    requires 2 <= i < 4
    ensures ParamNameOk(i)
  {
    if i == 2 {
    } else {
    }
  }

  lemma ParamNamesBelow6(i: nat)
    requires 4 <= i < 6
    ensures ParamNameOk(i)
  {
    if i == 4 {
    } else {
    }
  }

  lemma ParamNamesBelow8(i: nat)
    requires 6 <= i < 8
    ensures ParamNameOk(i)
  {
    if i == 6 {
    } else {
    }
  }

  lemma ParamNamesBelow10(i: nat)
    requires 8 <= i < 10
    ensures ParamNameOk(i)
  {
    if i == 8 {
    } else {
    }
  }

  lemma ParamNamesBelow12(i: nat)
    requires 10 <= i < 12
    ensures ParamNameOk(i)
  {
    if i == 10 {
    } else {
    }
  }

  lemma ParamNamesBelow14(i: nat)
    requires 12 <= i < 14
    ensures ParamNameOk(i)
  {
    if i == 12 {
    } else {
    }
  }

  lemma ParamNamesBelow16(i: nat)
    requires 14 <= i < 16
    ensures ParamNameOk(i)
  {
    if i == 14 {
    } else {
    }
  }

  lemma ParamName(i: nat)
    requires i < |PARAMETER_LIST|
    ensures ParamNameOk(i)
  {
    if i < 2 {
      ParamNamesBelow2(i);
    } else if i < 4 {
      ParamNamesBelow4(i);
    } else if i < 6 {
      ParamNamesBelow6(i);
    } else if i < 8 {
      ParamNamesBelow8(i);
    } else if i < 10 {
      ParamNamesBelow10(i);
    } else if i < 12 {
      ParamNamesBelow12(i);
    } else if i < 14 {
      ParamNamesBelow14(i);
    } else {
      ParamNamesBelow16(i);
    }
  }

  /** Two rows describing one argument have names of one length that fold to the same letters. */
  lemma MatchFixesName(arg: string, i: nat, j: nat)
    requires i < |PARAMETER_LIST| && j < |PARAMETER_LIST| && RowMatches(arg, i) && RowMatches(arg, j)
    ensures |PARAMETER_LIST[i].paramStr| == |PARAMETER_LIST[j].paramStr|
    ensures forall k :: 0 <= k < |PARAMETER_LIST[i].paramStr| ==>
              Lower(PARAMETER_LIST[i].paramStr[k]) == Lower(PARAMETER_LIST[j].paramStr[k])
  {
    var p, q := PARAMETER_LIST[i].paramStr, PARAMETER_LIST[j].paramStr;
    ParamName(i);
    ParamName(j);
    if |p| < |q| {
      assert false;
    } else if |q| < |p| {
      assert false;
    }
  }

  /**
   * At most one row describes an argument, so the order of the search does
   * not decide which switch is found.
   */
  lemma AtMostOneRowMatches(arg: string, i: nat, j: nat)
    requires i < |PARAMETER_LIST| && j < |PARAMETER_LIST| && RowMatches(arg, i) && RowMatches(arg, j)
    ensures i == j
  {
    MatchFixesName(arg, i, j);
    SameFoldSameRow(PARAMETER_LIST[i].paramStr, PARAMETER_LIST[j].paramStr);
    ParamName(i);
    ParamName(j);
  }

  /** The row FindArgumentInParameterArray returns is the only one describing the argument. */
  lemma FoundRowIsUnique(arg: string, i: nat)
    requires i < |PARAMETER_LIST| && RowMatches(arg, i)
    ensures FoundRow(arg) == Some(i)
  {
    AtMostOneRowMatches(arg, FoundRow(arg).value, i);
  }

  // ------------------------------------------------------------------ tokens

  /**
   * The modifiers of a switch: the tokens after the first, provided the
   * first token starts with the row's name (else None, E_INVALIDARG).
   */
  function Modifiers(arg: string, dRow: nat): Option<seq<string>>
    requires dRow < |PARAMETER_LIST|
  {
    var t := Tokens(arg);
    if |t| == 0 || !IPrefix(t[0], PARAMETER_LIST[dRow].paramStr) then None else Some(t[1..])
  }

  /** For an argument the row describes, the first token is the switch name and the modifiers follow it. */
  lemma MatchedModifiers(arg: string, dRow: nat)
    requires dRow < |PARAMETER_LIST| && RowMatches(arg, dRow)
    ensures var p := PARAMETER_LIST[dRow].paramStr;
            Modifiers(arg, dRow) == Some(if |arg| == |p| then [] else Tokens(arg[|p| + 1..]))
  {
    var p := PARAMETER_LIST[dRow].paramStr;
    ParamName(dRow);
    assert NoColon(p);
    FirstToken(arg, p);
    assert IPrefix(arg[..|p|], p);
  }

  /** A flag switch as the dispatcher passes it on (no ':' after the name) has no modifiers. */
  lemma FlagHasNoModifiers(arg: string, dRow: nat)
    requires dRow < |PARAMETER_LIST| && RowMatches(arg, dRow) && |arg| == |PARAMETER_LIST[dRow].paramStr|
    ensures Modifiers(arg, dRow) == Some([])
  {
    MatchedModifiers(arg, dRow);
  }

  // ------------------------------------------------------------------ the handlers

  /** ProcessFileSize: the modifier, hex after "0x", is the requested file size. */
  function ProcessFileSize(cfg: Config, dRow: nat, arg: string): (r: (HResult, Config))
    requires dRow < |PARAMETER_LIST|
    ensures r.0 == S_OK <==> Modifiers(arg, dRow).Some? && |Modifiers(arg, dRow).value| >= 1
    ensures r.0 != S_OK ==> r.0 == E_INVALIDARG && r.1 == cfg
    ensures r.0 == S_OK ==> var t := Modifiers(arg, dRow).value[0];
                            r.1 == cfg.(requestedRawDumpFileSize := StrToUi64(t, TokenBase(t)))
  {
    match Modifiers(arg, dRow)
    case None => (E_INVALIDARG, cfg)
    case Some(t) =>
      if |t| == 0 then (E_INVALIDARG, cfg)
      else (S_OK, cfg.(requestedRawDumpFileSize := StrToUi64(t[0], TokenBase(t[0]))))
  }

  /**
   * ProcessFileName: everything after the first ':' is the output file
   * name; no ':' gives E_INVALIDARG, and a name or partition already chosen
   * gives E_FAIL.
   */
  function ProcessFileName(cfg: Config, arg: string): (r: (HResult, Config))
    ensures r.0 == S_OK <==> ColonIndex(arg) < |arg| && !cfg.outputToPartition && cfg.outFileName == DEFAULT_DUMP_FILE_NAME
    ensures ColonIndex(arg) == |arg| ==> r.0 == E_INVALIDARG
    ensures r.0 != S_OK ==> r.1 == cfg && (r.0 == E_INVALIDARG || r.0 == E_FAIL)
    ensures r.0 == S_OK ==> r.1 == cfg.(outFileName := arg[ColonIndex(arg) + 1..], outputToPartition := false)
  {
    var k := ColonIndex(arg);
    if k == |arg| then (E_INVALIDARG, cfg)
    else if cfg.outputToPartition || cfg.outFileName != DEFAULT_DUMP_FILE_NAME then (E_FAIL, cfg)
    else (S_OK, cfg.(outFileName := arg[k + 1..], outputToPartition := false))
  }

  /** ProcessPart: output goes to the partition, unless a file name was given (E_FAIL). */
  function ProcessPart(cfg: Config): (r: (HResult, Config))
    ensures r.0 == S_OK <==> cfg.outFileName == DEFAULT_DUMP_FILE_NAME
    ensures r.0 != S_OK ==> r == (E_FAIL, cfg)
    ensures r.0 == S_OK ==> r.1 == cfg.(outputToPartition := true)
  {
    if cfg.outFileName != DEFAULT_DUMP_FILE_NAME then (E_FAIL, cfg) else (S_OK, cfg.(outputToPartition := true))
  }

  /** ProcessDDRSize: the default DDR section size, once (a size already changed gives E_FAIL). */
  function ProcessDDRSize(cfg: Config, dRow: nat, arg: string): (r: (HResult, Config))
    requires dRow < |PARAMETER_LIST|
    ensures cfg.ddrSize != DEFAULT_DDR_SECTIONS_SIZE ==> r == (E_FAIL, cfg)
    ensures r.0 == S_OK <==> cfg.ddrSize == DEFAULT_DDR_SECTIONS_SIZE && Modifiers(arg, dRow).Some? && |Modifiers(arg, dRow).value| >= 1
    ensures r.0 != S_OK ==> r.1 == cfg
    ensures r.0 == S_OK ==> var t := Modifiers(arg, dRow).value[0]; r.1 == cfg.(ddrSize := StrToUi64(t, TokenBase(t)))
  {
    if cfg.ddrSize != DEFAULT_DDR_SECTIONS_SIZE then (E_FAIL, cfg)
    else match Modifiers(arg, dRow)
      case None => (E_INVALIDARG, cfg)
      case Some(t) =>
        if |t| == 0 then (E_INVALIDARG, cfg)
        else (S_OK, cfg.(ddrSize := StrToUi64(t[0], TokenBase(t[0]))))
  }

  /**
   * ProcessDDRCount: a count above MAX_DDR_SECTIONS gives E_INVALIDARG; a
   * larger count than the current one becomes the count and the length of
   * the DDR list; a smaller one changes nothing.
   */
  function ProcessDDRCount(cfg: Config, dRow: nat, arg: string): (r: (HResult, Config))
    requires dRow < |PARAMETER_LIST|
    ensures r.0 == S_OK || r.0 == E_INVALIDARG
    ensures r.0 != S_OK ==> r.1 == cfg
    ensures r.0 == S_OK ==> Modifiers(arg, dRow).Some? && |Modifiers(arg, dRow).value| >= 1
    ensures r.0 == S_OK ==> var t := Modifiers(arg, dRow).value[0];
                            var n := StrToUlong(t, TokenBase(t));
                            n <= MAX_DDR_SECTIONS
                            && r.1 == if n > cfg.ddrSectionCount then cfg.(ddrSectionCount := n, sectionDDR := Resize(cfg.sectionDDR, n))
                                      else cfg
    ensures Modifiers(arg, dRow).Some? && |Modifiers(arg, dRow).value| >= 1 ==>
              var t := Modifiers(arg, dRow).value[0];
              (r.0 == S_OK <==> StrToUlong(t, TokenBase(t)) <= MAX_DDR_SECTIONS)
  {
    match Modifiers(arg, dRow)
    case None => (E_INVALIDARG, cfg)
    case Some(t) =>
      if |t| == 0 then (E_INVALIDARG, cfg)
      else
        var n := StrToUlong(t[0], TokenBase(t[0]));
        if n > MAX_DDR_SECTIONS then (E_INVALIDARG, cfg)
        else if n > cfg.ddrSectionCount then (S_OK, cfg.(ddrSectionCount := n, sectionDDR := Resize(cfg.sectionDDR, n)))
        else (S_OK, cfg)
  }

  /** The DDR_PROXIMITY a modifier names: ADJACENT or SCATTER, as a case-insensitive prefix, extra characters ignored. */
  function ProximityNamed(t: string): Option<Proximity>
  {
    if IPrefix(t, "ADJACENT") then Some(Adjacent)
    else if IPrefix(t, "SCATTER") then Some(Scatter)
    else None
  }

  /** ProcessDDRProximity: once (a proximity already set gives E_FAIL), and only a known value. */
  function ProcessDDRProximity(cfg: Config, dRow: nat, arg: string): (r: (HResult, Config))
    requires dRow < |PARAMETER_LIST|
    ensures cfg.ddrProximity != ProximityUnset ==> r == (E_FAIL, cfg)
    ensures r.0 == S_OK <==> cfg.ddrProximity == ProximityUnset && Modifiers(arg, dRow).Some?
                             && |Modifiers(arg, dRow).value| >= 1 && ProximityNamed(Modifiers(arg, dRow).value[0]).Some?
    ensures r.0 != S_OK ==> r.1 == cfg && (r.0 == E_FAIL || r.0 == E_INVALIDARG)
    ensures r.0 == S_OK ==> r.1 == cfg.(ddrProximity := ProximityNamed(Modifiers(arg, dRow).value[0]).value)
                            && r.1.ddrProximity != ProximityUnset
  {
    if cfg.ddrProximity != ProximityUnset then (E_FAIL, cfg)
    else match Modifiers(arg, dRow)
      case None => (E_INVALIDARG, cfg)
      case Some(t) =>
        if |t| == 0 then (E_INVALIDARG, cfg)
        else match ProximityNamed(t[0])
          case None => (E_INVALIDARG, cfg)
          case Some(p) => (S_OK, cfg.(ddrProximity := p))
  }

  /** The DDR_ORDER a modifier names: ASLISTED, ASCENDING, DESCENDING or RANDOM, as a case-insensitive prefix. */
  function OrderNamed(t: string): Option<Order>
  {
    if IPrefix(t, "ASLISTED") then Some(AsListed)
    else if IPrefix(t, "ASCENDING") then Some(Ascending)
    else if IPrefix(t, "DESCENDING") then Some(Descending)
    else if IPrefix(t, "RANDOM") then Some(Random)
    else None
  }

  /**
   * ProcessDDROrder. Its repeat guard compares DDR_Proximity (not DDR_Order)
   * with DDR_ORDER_UNSET, both enumerators being 0: once a proximity is set
   * the switch gives E_FAIL, while a second /DDROrder is accepted.
   */
  function ProcessDDROrder(cfg: Config, dRow: nat, arg: string): (r: (HResult, Config))
    requires dRow < |PARAMETER_LIST|
    ensures ProximityCode(cfg.ddrProximity) != OrderCode(OrderUnset) ==> r == (E_FAIL, cfg)
    ensures r.0 == S_OK <==> cfg.ddrProximity == ProximityUnset && Modifiers(arg, dRow).Some?
                             && |Modifiers(arg, dRow).value| >= 1 && OrderNamed(Modifiers(arg, dRow).value[0]).Some?
    ensures r.0 != S_OK ==> r.1 == cfg && (r.0 == E_FAIL || r.0 == E_INVALIDARG)
    ensures r.0 == S_OK ==> r.1 == cfg.(ddrOrder := OrderNamed(Modifiers(arg, dRow).value[0]).value)
                            && r.1.ddrOrder != OrderUnset
  {
    if ProximityCode(cfg.ddrProximity) != OrderCode(OrderUnset) then (E_FAIL, cfg)
    else match Modifiers(arg, dRow)
      case None => (E_INVALIDARG, cfg)
      case Some(t) =>
        if |t| == 0 then (E_INVALIDARG, cfg)
        else match OrderNamed(t[0])
          case None => (E_INVALIDARG, cfg)
          case Some(o) => (S_OK, cfg.(ddrOrder := o))
  }

  /**
   * ProcessNumCores: the core count, once (a count already set gives
   * E_FAIL). This handler does not check the first token against the
   * switch name; a switch without a second token gives E_INVALIDARG.
   */
  function ProcessNumCores(cfg: Config, arg: string): (r: (HResult, Config))
    ensures cfg.coreCount != INVALID_UINT32 ==> r == (E_FAIL, cfg)
    ensures r.0 == S_OK <==> cfg.coreCount == INVALID_UINT32 && |Tokens(arg)| >= 2
    ensures r.0 != S_OK ==> r.1 == cfg && (r.0 == E_FAIL || r.0 == E_INVALIDARG)
    ensures r.0 == S_OK ==> var t := Tokens(arg)[1]; r.1 == cfg.(coreCount := StrToUlong(t, TokenBase(t)))
  {
    if cfg.coreCount != INVALID_UINT32 then (E_FAIL, cfg)
    else
      var t := Tokens(arg);
      if |t| < 2 then (E_INVALIDARG, cfg)
      else (S_OK, cfg.(coreCount := StrToUlong(t[1], TokenBase(t[1]))))
  }

  /** ProcessNoPayload: clears writePayload, once; a modifier gives E_INVALIDARG. */
  function ProcessNoPayload(cfg: Config, arg: string): (r: (HResult, Config))
    ensures !cfg.writePayload ==> r == (E_FAIL, cfg)
    ensures r.0 == S_OK <==> cfg.writePayload && |Tokens(arg)| == 1
    ensures r.0 != S_OK ==> r.1 == cfg && (r.0 == E_FAIL || r.0 == E_INVALIDARG)
    ensures r.0 == S_OK ==> r.1 == cfg.(writePayload := false)
  {
    if !cfg.writePayload then (E_FAIL, cfg)
    else if |Tokens(arg)| != 1 then (E_INVALIDARG, cfg)
    else (S_OK, cfg.(writePayload := false))
  }

  /** ProcessNoAPReg: sets excludeApReg, once; a modifier gives E_INVALIDARG. */
  function ProcessNoAPReg(cfg: Config, arg: string): (r: (HResult, Config))
    ensures cfg.excludeApReg ==> r == (E_FAIL, cfg)
    ensures r.0 == S_OK <==> !cfg.excludeApReg && |Tokens(arg)| == 1
    ensures r.0 != S_OK ==> r.1 == cfg && (r.0 == E_FAIL || r.0 == E_INVALIDARG)
    ensures r.0 == S_OK ==> r.1 == cfg.(excludeApReg := true)
  {
    if cfg.excludeApReg then (E_FAIL, cfg)
    else if |Tokens(arg)| != 1 then (E_INVALIDARG, cfg)
    else (S_OK, cfg.(excludeApReg := true))
  }

  // ------------------------------------------------------------------ /DDR

  /** The row of /DDR in the table. */
  const DDR_ROW: nat := 4

  /** The three /DDR modifiers: the section id (atoi), the base and the size (_strtoui64, hex after "0x"). */
  datatype DdrArgs = DdrArgs(id: int, base: u64, size: u64)

  /**
   * The first argCount modifiers read as /DDR's id, base and size, in that
   * order; a missing modifier gives E_INVALIDARG, and modifiers after the
   * third are never read. Only a table row asking for more than three
   * modifiers reaches the E_FAIL of the switch's default case, and no row of
   * PARAMETER_LIST does (NoRowAsksForFourTokens). The id keeps its initial -1 (the LONG value of
   * INVALID_UINT32) when no modifier is read.
   */
  function DdrTokens(t: seq<string>, argCount: nat): (r: (HResult, DdrArgs))
    ensures r.0 == S_OK <==> argCount <= |t| && argCount <= 3
    ensures r.0 != S_OK ==> r.0 == E_INVALIDARG || r.0 == E_FAIL
    ensures argCount > |t| && |t| <= 3 ==> r.0 == E_INVALIDARG
    ensures argCount > 3 && |t| > 3 ==> r.0 == E_FAIL
    ensures INT_MIN <= r.1.id <= INT_MAX
    ensures argCount == 3 && r.0 == S_OK ==>
              r.1 == DdrArgs(Atoi(t[0]), StrToUi64(t[1], TokenBase(t[1])), StrToUi64(t[2], TokenBase(t[2])))
  {
    var read := Min(|t|, Min(argCount, 3));
    if read < argCount && read == |t| then (E_INVALIDARG, DdrArgs(-1, 0, 0))
    else if argCount > 3 then (E_FAIL, DdrArgs(-1, 0, 0))
    else
      (S_OK, DdrArgs(if argCount >= 1 then Atoi(t[0]) else -1,
                     if argCount >= 2 then StrToUi64(t[1], TokenBase(t[1])) else 0,
                     if argCount >= 3 then StrToUi64(t[2], TokenBase(t[2])) else 0))
  }

  /** Modifiers after the ones read (at most three) do not change the outcome: the strtok loop stops at argCount. */
  lemma DdrTokensIgnoreExtra(t: seq<string>, extra: seq<string>, argCount: nat)
    requires argCount <= 3 && argCount <= |t|
    ensures DdrTokens(t + extra, argCount) == DdrTokens(t, argCount)
  {
    assert forall k :: 0 <= k < |t| ==> (t + extra)[k] == t[k];
  }

  /** No row of the switch table asks for more than three modifiers. */
  lemma NoRowAsksForFourTokens()
    ensures forall r :: 0 <= r < |PARAMETER_LIST| ==> PARAMETER_LIST[r].numArgs <= 3
  {
  }

  /**
   * Storing section `id`: an id at or beyond the end of the list makes the
   * count id + 1 and grows the list to it; the slot then gets a VALID
   * DDR-range entry named for the id, with Offset INVALID. A negative id is
   * refused with E_INVALIDARG (see DdrStoreAsWritten for the code as
   * written).
   */
  function StoreDdrSection(cfg: Config, a: DdrArgs): (r: (HResult, Config))
    requires INT_MIN <= a.id <= INT_MAX
    ensures a.id < 0 ==> r == (E_INVALIDARG, cfg)
    ensures a.id >= 0 ==> r.0 == S_OK
    ensures r.0 == S_OK ==>
              && |r.1.sectionDDR| == Max(|cfg.sectionDDR|, a.id + 1)
              && r.1.sectionDDR[a.id] == Some(ProcessDdr.DdrSection(a.id, a.base, a.size))
              && (forall j :: 0 <= j < |cfg.sectionDDR| && j != a.id ==> r.1.sectionDDR[j] == cfg.sectionDDR[j])
              && (forall j :: |cfg.sectionDDR| <= j < |r.1.sectionDDR| && j != a.id ==> r.1.sectionDDR[j] == None)
              && r.1 == cfg.(ddrSectionCount := r.1.ddrSectionCount, sectionDDR := r.1.sectionDDR)
              && r.1.ddrSectionCount == if a.id >= |cfg.sectionDDR| then a.id + 1 else cfg.ddrSectionCount
  {
    if a.id < 0 then (E_INVALIDARG, cfg)
    else
      var id: nat := a.id;
      assert (id + 1) % U32_LIMIT == id + 1;
      ResizeOnlyGrows(cfg.sectionDDR, id + 1);
      var grows := id >= |cfg.sectionDDR|;
      var count: u32 := if grows then (id + 1) % U32_LIMIT else cfg.ddrSectionCount;
      var list := if grows then Resize(cfg.sectionDDR, (id + 1) % U32_LIMIT) else cfg.sectionDDR;
      (S_OK, cfg.(ddrSectionCount := count, sectionDDR := list[id := Some(ProcessDdr.DdrSection(id, a.base, a.size))]))
  }

  /** ProcessDDRParameters, as a value: the name check, the modifiers, then the store. */
  function DdrParameters(cfg: Config, dRow: nat, arg: string): (r: (HResult, Config))
    requires dRow < |PARAMETER_LIST|
    ensures r.0 != S_OK ==> r.1 == cfg && (r.0 == E_INVALIDARG || r.0 == E_FAIL)
  {
    match Modifiers(arg, dRow)
    case None => (E_INVALIDARG, cfg)
    case Some(t) =>
      var d := DdrTokens(t, PARAMETER_LIST[dRow].numArgs);
      if d.0 != S_OK then (d.0, cfg) else StoreDdrSection(cfg, d.1)
  }

  /**
   * The modifier loop of ProcessDDRParameters: numArgs tokens read in
   * order, stopping at the first failure; tokens after them are ignored.
   */
  method ReadDdrTokens(t: seq<string>, argCount: nat) returns (ret: HResult, args: DdrArgs)
    ensures ret == DdrTokens(t, argCount).0
    ensures ret == S_OK ==> args == DdrTokens(t, argCount).1
  {
    ret := S_OK;
    var sectionID: int := -1;
    var sectionBase: u64 := 0;
    var sectionSize: u64 := 0;
    var i := 0;
    while ret == S_OK && i < argCount
      invariant 0 <= i <= argCount
      invariant ret == S_OK || (ret == E_INVALIDARG && |t| < argCount && |t| <= 3) || (ret == E_FAIL && 3 < argCount && 3 < |t|)
      invariant ret == S_OK ==> i <= |t| && i <= 3
      invariant ret == S_OK ==> sectionID == (if i >= 1 then Atoi(t[0]) else -1)
      invariant ret == S_OK ==> sectionBase == (if i >= 2 then StrToUi64(t[1], TokenBase(t[1])) else 0)
      invariant ret == S_OK ==> sectionSize == (if i >= 3 then StrToUi64(t[2], TokenBase(t[2])) else 0)
    {
      if i >= |t| {
        ret := E_INVALIDARG;
      } else {
        if i == 0 {
          sectionID := Atoi(t[0]);
        } else if i == 1 {
          sectionBase := StrToUi64(t[1], TokenBase(t[1]));
        } else if i == 2 {
          sectionSize := StrToUi64(t[2], TokenBase(t[2]));
        } else {
          ret := E_FAIL;
        }
      }
      i := i + 1;
    }
    args := DdrArgs(sectionID, sectionBase, sectionSize);
  }

  /**
   * ProcessDDRParameters: strtok the argument, check the switch name, read
   * the modifiers, then store the section.
   */
  method ProcessDDRParameters(cfg: Config, dRow: nat, argList: string) returns (ret: HResult, cfg': Config)
    requires dRow < |PARAMETER_LIST|
    ensures (ret, cfg') == DdrParameters(cfg, dRow, argList)
  {
    var mods := Modifiers(argList, dRow);
    if mods.None? {
      return E_INVALIDARG, cfg;
    }
    var args;
    ret, args := ReadDdrTokens(mods.value, PARAMETER_LIST[dRow].numArgs);
    cfg' := cfg;
    if ret == S_OK {
      var stored := StoreDdrSection(cfg, args);
      ret, cfg' := stored.0, stored.1;
    }
  }

  /**
   * /DDR:id:base:size on a described argument: it succeeds exactly when
   * three modifiers follow and the id is not negative, and then slot id
   * holds the described section and no other slot changes.
   */
  lemma DdrStoresSection(cfg: Config, arg: string)
    requires RowMatches(arg, DDR_ROW)
    ensures Modifiers(arg, DDR_ROW).Some?
    ensures var m := Modifiers(arg, DDR_ROW).value;
            var r := DdrParameters(cfg, DDR_ROW, arg);
            && (r.0 == S_OK <==> |m| >= 3 && Atoi(m[0]) >= 0)
            && (r.0 != S_OK ==> r == (E_INVALIDARG, cfg))
            && (r.0 == S_OK ==>
                  var id := Atoi(m[0]);
                  && |r.1.sectionDDR| == Max(|cfg.sectionDDR|, id + 1)
                  && r.1.sectionDDR[id] == Some(ProcessDdr.DdrSection(id, StrToUi64(m[1], TokenBase(m[1])), StrToUi64(m[2], TokenBase(m[2]))))
                  && forall j :: 0 <= j < |cfg.sectionDDR| && j != id ==> r.1.sectionDDR[j] == cfg.sectionDDR[j])
  {
    MatchedModifiers(arg, DDR_ROW);
    var m := Modifiers(arg, DDR_ROW).value;
    assert PARAMETER_LIST[DDR_ROW].numArgs == 3;
    var d := DdrTokens(m, 3);
    assert DdrParameters(cfg, DDR_ROW, arg) == if d.0 != S_OK then (d.0, cfg) else StoreDdrSection(cfg, d.1);
    if |m| < 3 {
      assert d.0 == E_INVALIDARG;
    } else {
      assert d == (S_OK, DdrArgs(Atoi(m[0]), StrToUi64(m[1], TokenBase(m[1])), StrToUi64(m[2], TokenBase(m[2]))));
    }
  }

  /**
   * The guard and the store of /DDR as the code is written: the LONG id is
   * compared with size() after conversion to size_t, the new count is
   * (id + 1) truncated to UINT32, and the store index is the id itself.
   * Returns the new count, the new list size and the store index.
   */
  function DdrStoreAsWritten(listSize: nat, count: u32, id: int): (r: (u32, nat, int))
    requires INT_MIN <= id <= INT_MAX
    ensures 0 <= id ==> (r.2 == id && r.1 == Max(listSize, id + 1) && 0 <= r.2 < r.1)
  {
    if id % U64_LIMIT >= listSize then
      var c: u32 := (id + 1) % U32_LIMIT;
      (c, Max(listSize, c), id)
    else (count, listSize, id)
  }

  /** Every negative id passes the guard of the code as written, and its store index is outside the list. */
  lemma NegativeIdPassesGuard(listSize: nat, count: u32, id: int)
    requires INT_MIN <= id < 0 && listSize <= MAX_DDR_SECTIONS
    ensures id % U64_LIMIT >= listSize
    ensures var r := DdrStoreAsWritten(listSize, count, id); !(0 <= r.2 < r.1)
  {
  }

  /** /DDR:-1:... on the default two-slot list: the count becomes 0, nothing is resized, and the store goes to index -1. */
  lemma DdrMinusOneAsWritten()
    ensures DdrStoreAsWritten(2, 2, -1) == (0, 2, -1)
  {
  }

  // ------------------------------------------------------------------ a switch

  /** The DDR count is the length of the DDR list, and every slot can be named. */
  predicate CountMatches(cfg: Config)
  {
    cfg.ddrSectionCount as int == |cfg.sectionDDR| && |cfg.sectionDDR| <= ProcessDdr.MAX_NAMED_ID
  }

  /** /DDR keeps the DDR count equal to the list length, and never shrinks the list. */
  lemma DdrKeepsCount(cfg: Config, dRow: nat, arg: string)
    requires dRow < |PARAMETER_LIST|
    ensures CountMatches(cfg) ==> CountMatches(DdrParameters(cfg, dRow, arg).1)
    ensures |DdrParameters(cfg, dRow, arg).1.sectionDDR| >= |cfg.sectionDDR|
  {
    match Modifiers(arg, dRow)
    case None =>
    case Some(t) =>
      var d := DdrTokens(t, PARAMETER_LIST[dRow].numArgs);
      if d.0 == S_OK && d.1.id >= 0 {
        assert d.1.id + 1 <= ProcessDdr.MAX_NAMED_ID;
      }
  }

  /**
   * The handler a row names, applied to the configuration. No handler
   * breaks the agreement of the DDR count with the list, and none shrinks
   * the list.
   */
  function RunHandler(h: Handler, cfg: Config, dRow: nat, arg: string): (r: (HResult, Config))
    requires dRow < |PARAMETER_LIST|
    ensures CountMatches(cfg) ==> CountMatches(r.1)
    ensures |r.1.sectionDDR| >= |cfg.sectionDDR|
  {
    match h
    case FileSizeHandler => ProcessFileSize(cfg, dRow, arg)
    case FileNameHandler => ProcessFileName(cfg, arg)
    case PartHandler => ProcessPart(cfg)
    case DdrHandler =>
      DdrKeepsCount(cfg, dRow, arg);
      DdrParameters(cfg, dRow, arg)
    case DdrSizeHandler => ProcessDDRSize(cfg, dRow, arg)
    case DdrCountHandler =>
      DdrCountOnlyRaises(cfg, dRow, arg);
      ProcessDDRCount(cfg, dRow, arg)
    case DdrOrderHandler => ProcessDDROrder(cfg, dRow, arg)
    case DdrProximityHandler => ProcessDDRProximity(cfg, dRow, arg)
    case NumCoresHandler => ProcessNumCores(cfg, arg)
    case NoPayloadHandler => ProcessNoPayload(cfg, arg)
    case NoApRegHandler => ProcessNoAPReg(cfg, arg)
  }

  /** The lines ProcessCommandArguments appends to failString. */
  function UnknownSwitchMessage(arg: string): (m: string)
    ensures |m| > |arg|
  {
    "   unknown switch ==> [" + arg + "]\r\n"
  }

  function UnsupportedSwitchMessage(name: string): (m: string)
    ensures |m| > |name|
  {
    "   unsupported switch ==> [" + name + "] not implemented, will be ignored\r\n"
  }

  function NoModifiersMessage(name: string): (m: string)
    ensures |m| > |name|
  {
    "   invalid switch ==> [" + name + "] takes no modifiers\r\n"
  }

  function BadModifierMessage(arg: string): (m: string)
    ensures |m| > |arg|
  {
    "   invalid switch modifier ==> [" + arg + "]\r\n"
  }

  function NoPrefixMessage(arg: string): (m: string)
    ensures |m| > |arg|
  {
    " * invalid switch ==> [" + arg + "] must begin with / or -\r\n"
  }

  /** What is known while the switches are parsed: the verdict so far, the configuration, the failure text. */
  datatype ParseState = ParseState(hr: HResult, cfg: Config, failString: string)

  /**
   * What one argument does: the verdict it sets (None when it leaves hr as
   * it was), the configuration it leaves and the text it appends.
   */
  datatype Outcome = Outcome(hr: Option<HResult>, cfg: Config, message: string)

  /**
   * One iteration of the loop over argv: the leading '/' or '-', the
   * search, the placeholder rows (a warning, nothing else), the flag check
   * (a ':' after a switch without modifiers) and the handler.
   */
  ghost function SwitchOutcome(cfg: Config, a: string): (o: Outcome)
    ensures o.hr.Some? && !Succeeded(o.hr.value) ==> |o.message| > 0
    ensures o.hr.None? ==> o.cfg == cfg
  {
    if |a| > 0 && (a[0] == '/' || a[0] == '-') then
      var tmp := a[1..];
      match FoundRow(tmp)
      case None => Outcome(Some(E_FAIL), cfg, UnknownSwitchMessage(tmp))
      case Some(k) =>
        var row := PARAMETER_LIST[k];
        if row.handler.None? then
          Outcome(None, cfg, UnsupportedSwitchMessage(row.paramStr))
        else if row.numArgs == 0 && |tmp| > |row.paramStr| && tmp[|row.paramStr|] == ':' then
          Outcome(Some(E_FAIL), cfg, NoModifiersMessage(row.paramStr))
        else
          var h := RunHandler(row.handler.value, cfg, k, tmp);
          Outcome(Some(h.0), h.1, if Succeeded(h.0) then "" else BadModifierMessage(tmp))
    else
      Outcome(Some(E_FAIL), cfg, NoPrefixMessage(a))
  }

  /** The loop's state after one argument. */
  ghost function ArgumentStep(st: ParseState, a: string): ParseState
  {
    var o := SwitchOutcome(st.cfg, a);
    ParseState(if o.hr.Some? then o.hr.value else st.hr, o.cfg, st.failString + o.message)
  }

  /**
   * An argument that does not start with '/' or '-', or names no switch,
   * fails the parse with its message and leaves the configuration alone.
   */
  lemma StrayArgumentFails(st: ParseState, a: string)
    ensures (|a| == 0 || (a[0] != '/' && a[0] != '-')) ==>
              ArgumentStep(st, a) == ParseState(E_FAIL, st.cfg, st.failString + NoPrefixMessage(a))
    ensures |a| > 0 && (a[0] == '/' || a[0] == '-') && (forall i :: 0 <= i < |PARAMETER_LIST| ==> !RowMatches(a[1..], i)) ==>
              ArgumentStep(st, a) == ParseState(E_FAIL, st.cfg, st.failString + UnknownSwitchMessage(a[1..]))
  {
  }

  /** /NoSvData and /NoTzData are placeholders: a warning is appended and nothing else changes. */
  lemma PlaceholderSwitchIgnored(st: ParseState, a: string, k: nat)
    requires (k == 14 || k == 15) && |a| > 0 && (a[0] == '/' || a[0] == '-') && RowMatches(a[1..], k)
    ensures ArgumentStep(st, a) ==
              st.(failString := st.failString + UnsupportedSwitchMessage(PARAMETER_LIST[k].paramStr))
  {
    FoundRowIsUnique(a[1..], k);
    if k == 14 {
      assert PARAMETER_LIST[14] == ParamRow("NoSvData", 0, None);
    } else {
      assert PARAMETER_LIST[15] == ParamRow("NoTzData", 0, None);
    }
  }

  /** The failure text only grows, and every argument that fails the parse adds to it. */
  lemma StepAppendsMessages(st: ParseState, a: string)
    requires Succeeded(st.hr)
    ensures var r := ArgumentStep(st, a);
            |r.failString| >= |st.failString| && r.failString[..|st.failString|] == st.failString
            && (!Succeeded(r.hr) ==> |r.failString| > |st.failString|)
  {
    var o := SwitchOutcome(st.cfg, a);
    assert (st.failString + o.message)[..|st.failString|] == st.failString;
  }

  /** A flag switch followed by ':' fails with "takes no modifiers", and its handler is not run. */
  lemma FlagWithModifierFails(st: ParseState, a: string, k: nat)
    requires k < |PARAMETER_LIST| && |a| > 0 && (a[0] == '/' || a[0] == '-') && RowMatches(a[1..], k)
    requires PARAMETER_LIST[k].numArgs == 0 && PARAMETER_LIST[k].handler.Some? && |a| - 1 > |PARAMETER_LIST[k].paramStr|
    ensures ArgumentStep(st, a) ==
              ParseState(E_FAIL, st.cfg, st.failString + NoModifiersMessage(PARAMETER_LIST[k].paramStr))
  {
    FoundRowIsUnique(a[1..], k);
  }

  /** No iteration breaks the agreement of the DDR count with the list, and none shrinks the list. */
  lemma StepKeepsCount(st: ParseState, a: string)
    requires CountMatches(st.cfg)
    ensures CountMatches(ArgumentStep(st, a).cfg) && |ArgumentStep(st, a).cfg.sectionDDR| >= |st.cfg.sectionDDR|
  {
    if |a| > 0 && (a[0] == '/' || a[0] == '-') {
      var tmp := a[1..];
      match FoundRow(tmp)
      case None =>
      case Some(k) =>
        var row := PARAMETER_LIST[k];
    }
  }

  /** The loop over argv from index i: it runs while the verdict is a success. */
  ghost function ParseFrom(argv: seq<string>, i: nat, st: ParseState): ParseState
    decreases |argv| - i
  {
    if i < |argv| && Succeeded(st.hr) then ParseFrom(argv, i + 1, ArgumentStep(st, argv[i])) else st
  }

  /** The defaults ProcessCommandArguments sets before looking at argv. */
  function ParseDefaults(cfg: Config): (c: Config)
    ensures c.ddrSectionCount == DEFAULT_DDR_SECTIONS_COUNT && c.ddrProximity == ProximityUnset && c.ddrOrder == OrderUnset
    ensures c.ddrSize == DEFAULT_DDR_SECTIONS_SIZE && !c.excludeApReg && !c.excludeTZ && c.writePayload
    ensures c.coreCount == INVALID_UINT32 && c.sectionDDR == cfg.sectionDDR && c.outFileName == cfg.outFileName
  {
    cfg.(ddrSectionCount := DEFAULT_DDR_SECTIONS_COUNT, ddrProximity := ProximityUnset, ddrOrder := OrderUnset,
         ddrSize := DEFAULT_DDR_SECTIONS_SIZE, excludeApReg := false, excludeTZ := false, writePayload := true,
         coreCount := INVALID_UINT32)
  }

  /** After a successful parse, an unset proximity becomes ADJACENT, an unset order ASCENDING and an unset core count 6; a set one stays. */
  function UnsetDefaults(cfg: Config): (c: Config)
    ensures c.ddrProximity != ProximityUnset && c.ddrOrder != OrderUnset && c.coreCount != INVALID_UINT32
    ensures cfg.ddrProximity != ProximityUnset ==> c.ddrProximity == cfg.ddrProximity
    ensures cfg.ddrOrder != OrderUnset ==> c.ddrOrder == cfg.ddrOrder
    ensures cfg.coreCount != INVALID_UINT32 ==> c.coreCount == cfg.coreCount
    ensures c == cfg.(ddrProximity := c.ddrProximity, ddrOrder := c.ddrOrder, coreCount := c.coreCount)
  {
    cfg.(ddrProximity := if cfg.ddrProximity == ProximityUnset then Adjacent else cfg.ddrProximity,
         ddrOrder := if cfg.ddrOrder == OrderUnset then Ascending else cfg.ddrOrder,
         coreCount := if cfg.coreCount == INVALID_UINT32 then DEFAULT_CORE_COUNT else cfg.coreCount)
  }

  /** ProcessCommandArguments, as a value. */
  ghost function CommandArguments(argv: seq<string>, cfg: Config, failString: string): ParseState
  {
    var st := ParseFrom(argv, 1, ParseState(S_OK, ParseDefaults(cfg), failString));
    if Succeeded(st.hr) then st.(cfg := UnsetDefaults(st.cfg)) else st
  }

  /**
   * The body of ProcessCommandArguments' loop for one argument: the
   * leading '/' or '-', the search, the placeholder rows, the flag check
   * and the handler, each failure appending its message.
   */
  method ProcessArgument(st: ParseState, a: string) returns (st': ParseState)
    ensures st' == ArgumentStep(st, a)
  {
    var hr, config, message := st.hr, st.cfg, "";
    if |a| > 0 && (a[0] == '/' || a[0] == '-') {
      var tmpArg := a[1..];
      var foundArgument := FindArgumentInParameterArray(tmpArg);
      if foundArgument == INVALID_UINT32 {
        assert FoundRow(tmpArg).None?;
        message := UnknownSwitchMessage(tmpArg);
        hr := E_FAIL;
      } else {
        FoundRowIsUnique(tmpArg, foundArgument as nat);
        var row := PARAMETER_LIST[foundArgument];
        if row.handler.None? {
          message := UnsupportedSwitchMessage(row.paramStr);
        } else if row.numArgs == 0 && |tmpArg| > |row.paramStr| && tmpArg[|row.paramStr|] == ':' {
          message := NoModifiersMessage(row.paramStr);
          hr := E_FAIL;
        } else {
          if row.handler.value == DdrHandler {
            hr, config := ProcessDDRParameters(config, foundArgument as nat, tmpArg);
          } else {
            var h := RunHandler(row.handler.value, config, foundArgument as nat, tmpArg);
            hr, config := h.0, h.1;
          }
          if !Succeeded(hr) {
            message := BadModifierMessage(tmpArg);
          }
        }
      }
    } else {
      message := NoPrefixMessage(a);
      hr := E_FAIL;
    }
    st' := ParseState(hr, config, st.failString + message);
  }

  /**
   * ProcessCommandArguments: the defaults, then argv[1..] one switch at a
   * time until one fails, then the defaults for what was left unset.
   */
  method ProcessCommandArguments(argv: seq<string>, config: Config, failString: string)
    returns (hr: HResult, config': Config, failString': string)
    ensures ParseState(hr, config', failString') == CommandArguments(argv, config, failString)
    ensures Succeeded(hr) ==> config'.ddrProximity != ProximityUnset && config'.ddrOrder != OrderUnset
                              && config'.coreCount != INVALID_UINT32
  {
    var st := ParseState(S_OK, ParseDefaults(config), failString);
    var i := 1;
    while Succeeded(st.hr) && i < |argv|
      invariant 1 <= i
      invariant ParseFrom(argv, i, st) == ParseFrom(argv, 1, ParseState(S_OK, ParseDefaults(config), failString))
      decreases |argv| - i
    {
      st := ProcessArgument(st, argv[i]);
      i := i + 1;
    }
    hr, config', failString' := st.hr, st.cfg, st.failString;
    if Succeeded(hr) {
      config' := UnsetDefaults(config');
    }
  }

  // ------------------------------------------------------------------ properties of the parse

  /** The loop never clears a failure, and it keeps the DDR count equal to the list length. */
  lemma {:induction false} ParseKeepsCount(argv: seq<string>, i: nat, st: ParseState)
    requires CountMatches(st.cfg)
    ensures CountMatches(ParseFrom(argv, i, st).cfg)
    ensures |ParseFrom(argv, i, st).cfg.sectionDDR| >= |st.cfg.sectionDDR|
    ensures !Succeeded(st.hr) ==> ParseFrom(argv, i, st) == st
    decreases |argv| - i
  {
    if i < |argv| && Succeeded(st.hr) {
      StepKeepsCount(st, argv[i]);
      ParseKeepsCount(argv, i + 1, ArgumentStep(st, argv[i]));
    }
  }

  /**
   * Starting from main's two-slot DDR list, the parsed configuration has as
   * many DDR slots as its DDR count, and every one can be named.
   */
  lemma CommandArgumentsKeepCount(argv: seq<string>, cfg: Config, failString: string)
    requires |cfg.sectionDDR| == DEFAULT_DDR_SECTIONS_COUNT
    ensures CountMatches(CommandArguments(argv, cfg, failString).cfg)
    ensures |CommandArguments(argv, cfg, failString).cfg.sectionDDR| >= DEFAULT_DDR_SECTIONS_COUNT
  {
    ParseKeepsCount(argv, 1, ParseState(S_OK, ParseDefaults(cfg), failString));
  }

  /** A failing switch ends the parse: whatever follows it on the command line is not looked at. */
  lemma {:induction false} FailureStopsParsing(argv: seq<string>, extra: seq<string>, i: nat, st: ParseState)
    requires i <= |argv| && !Succeeded(ParseFrom(argv, i, st).hr)
    ensures ParseFrom(argv + extra, i, st) == ParseFrom(argv, i, st)
    decreases |argv| - i
  {
    if i < |argv| && Succeeded(st.hr) {
      assert (argv + extra)[i] == argv[i];
      FailureStopsParsing(argv, extra, i + 1, ArgumentStep(st, argv[i]));
    } else if i == |argv| && Succeeded(st.hr) {
      assert false;
    }
  }

  /** ProcessCommandArguments called with argv = [program] (no switches) gives the defaults: ADJACENT, ASCENDING, six cores, payload written, AP registers kept, two DDR sections. */
  lemma NoSwitchesGiveDefaults(program: string, cfg: Config, failString: string)
    ensures var r := CommandArguments([program], cfg, failString);
            && r.hr == S_OK && r.failString == failString
            && r.cfg.ddrProximity == Adjacent && r.cfg.ddrOrder == Ascending && r.cfg.coreCount == DEFAULT_CORE_COUNT
            && r.cfg.writePayload && !r.cfg.excludeApReg && !r.cfg.excludeTZ
            && r.cfg.ddrSectionCount == DEFAULT_DDR_SECTIONS_COUNT && r.cfg.ddrSize == DEFAULT_DDR_SECTIONS_SIZE
  {
  }

  /**
   * The repeat guard of /DDROrder tests DDR_Proximity: after a successful
   * /DDRProximity, a /DDROrder fails with E_FAIL and changes nothing.
   */
  lemma ProximityBlocksOrder(cfg: Config, dRow1: nat, arg1: string, dRow2: nat, arg2: string)
    requires dRow1 < |PARAMETER_LIST| && dRow2 < |PARAMETER_LIST|
    requires ProcessDDRProximity(cfg, dRow1, arg1).0 == S_OK
    ensures var c := ProcessDDRProximity(cfg, dRow1, arg1).1; ProcessDDROrder(c, dRow2, arg2) == (E_FAIL, c)
  {
  }

  /**
   * ... while /DDROrder itself does not set DDR_Proximity, so a second
   * /DDROrder is judged as if the first had not been given, and overrides it.
   */
  lemma OrderRepeatAccepted(cfg: Config, dRow1: nat, arg1: string, dRow2: nat, arg2: string)
    requires dRow1 < |PARAMETER_LIST| && dRow2 < |PARAMETER_LIST|
    requires ProcessDDROrder(cfg, dRow1, arg1).0 == S_OK
    ensures var again := ProcessDDROrder(ProcessDDROrder(cfg, dRow1, arg1).1, dRow2, arg2);
            again.0 == ProcessDDROrder(cfg, dRow2, arg2).0
            && (again.0 == S_OK ==> again.1 == ProcessDDROrder(cfg, dRow2, arg2).1)
  {
    var o := ProcessDDROrder(cfg, dRow1, arg1);
    assert o.1 == cfg.(ddrOrder := o.1.ddrOrder);
  }

  /** A /DDRCount only ever raises the DDR count, and a count above MAX_DDR_SECTIONS is refused without effect. */
  lemma DdrCountOnlyRaises(cfg: Config, dRow: nat, arg: string)
    requires dRow < |PARAMETER_LIST|
    ensures var r := ProcessDDRCount(cfg, dRow, arg);
            r.1.ddrSectionCount >= cfg.ddrSectionCount && Max(cfg.ddrSectionCount, MAX_DDR_SECTIONS) >= r.1.ddrSectionCount
            && |r.1.sectionDDR| >= |cfg.sectionDDR| && r.1.sectionDDR[..|cfg.sectionDDR|] == cfg.sectionDDR
            && (CountMatches(cfg) ==> CountMatches(r.1))
  {
    var r := ProcessDDRCount(cfg, dRow, arg);
    if r.1 != cfg {
      ResizeOnlyGrows(cfg.sectionDDR, r.1.ddrSectionCount as nat);
    }
  }
}
