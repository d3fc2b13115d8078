// makeRawDump's main (tools/makeRawDump/makeDumpFile.cpp:56-130) up to the
// section table: whether the command-line parser runs, and which table
// CreateFullSectionsTable has filled when it stamps entry 0's Offset.
module MakeDumpMain {
  import opened Machine
  import opened Status
  import opened MakeDumpDefs
  import ProcessArgs
  import MakeDumpFile

  /**
   * main's parse as written: ProcessCommandArguments runs only when
   * argc > 1, so with no arguments the zero-initialised DUMP_CONFIG is kept
   * as it is, its proximity and order UNSET.
   */
  ghost function MainParseAsWritten(argv: seq<string>, config: Config, failString: string): (r: ProcessArgs.ParseState)
    ensures |argv| <= 1 ==> r == ProcessArgs.ParseState(S_OK, config, failString)
    ensures |argv| > 1 ==> r == ProcessArgs.CommandArguments(argv, config, failString)
  {
    if |argv| > 1 then ProcessArgs.CommandArguments(argv, config, failString)
    else ProcessArgs.ParseState(S_OK, config, failString)
  }

  /**
   * The corrected parse: ProcessCommandArguments always runs, so a
   * successful parse always leaves a proximity and an order set.
   */
  ghost function MainParse(argv: seq<string>, config: Config, failString: string): (r: ProcessArgs.ParseState)
    ensures Succeeded(r.hr) ==> r.cfg.ddrProximity != ProximityUnset && r.cfg.ddrOrder != OrderUnset
  {
    ProcessArgs.CommandArguments(argv, config, failString)
  }

  /**
   * The table CreateFullSectionsTable holds when it stamps entry 0's Offset
   * (makeDumpFile.cpp:663-665): ADJACENT has copied the SV, DDR and CPU
   * entries into it; any proximity that is neither ADJACENT nor SCATTER
   * copies nothing, so every slot is still null. SCATTER depends on rand()
   * and is not modelled.
   */
  function TableBeforeStamp(proximity: Proximity, sv: SectionList, ddr: SectionList, cpu: SectionList): (t: SectionList)
    requires proximity != Scatter
    requires AllPresent(sv) && AllPresent(ddr) && AllPresent(cpu)
    ensures |t| == |sv| + |ddr| + |cpu|
    ensures proximity == Adjacent ==> AllPresent(t) && Present(t) == MakeDumpFile.AdjacentOrder(sv, ddr, cpu)
    ensures proximity == ProximityUnset ==> forall i :: 0 <= i < |t| ==> t[i] == None
  {
    if proximity == Adjacent then Pointers(MakeDumpFile.AdjacentOrder(sv, ddr, cpu))
    else MakeDumpFile.Nulls(|sv| + |ddr| + |cpu|)
  }

  /**
   * As written, makeRawDump run with no arguments keeps the zeroed
   * proximity, so CreateFullSectionsTable copies no section and entry 0,
   * whose Offset it then sets, is a null pointer (the SV list alone has at
   * least 13 entries after UpdateSVWithDefault, so the table is not empty).
   */
  lemma NoArgumentsStampNullEntryAsWritten(program: string, config: Config, failString: string,
                                            sv: SectionList, ddr: SectionList, cpu: SectionList)
    requires config.ddrProximity == ProximityUnset
    requires AllPresent(sv) && AllPresent(ddr) && AllPresent(cpu) && 0 < |sv|
    ensures var st := MainParseAsWritten([program], config, failString);
            && st.hr == S_OK && st.cfg.ddrProximity == ProximityUnset
            && TableBeforeStamp(st.cfg.ddrProximity, sv, ddr, cpu)[0] == None
  {
  }

  /**
   * With the parser always run, no arguments give the ADJACENT layout in
   * ascending order, and the entry stamped is the first SV section.
   */
  lemma NoArgumentsFillTable(program: string, config: Config, failString: string,
                             sv: SectionList, ddr: SectionList, cpu: SectionList)
    requires AllPresent(sv) && AllPresent(ddr) && AllPresent(cpu) && 0 < |sv|
    ensures var st := MainParse([program], config, failString);
            && st.hr == S_OK && st.cfg.ddrProximity == Adjacent && st.cfg.ddrOrder == Ascending
            && AllPresent(TableBeforeStamp(st.cfg.ddrProximity, sv, ddr, cpu))
            && TableBeforeStamp(st.cfg.ddrProximity, sv, ddr, cpu)[0] == sv[0]
  {
    ProcessArgs.NoSwitchesGiveDefaults(program, config, failString);
  }
}
