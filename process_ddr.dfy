// The raw dump generator's default DDR sections
// (tools/makeRawDump/processDDR.cpp, processDDR.h): the "DDRCSnnn.BIN"
// section names and the filling of the DDR slots that /DDR did not set.
module ProcessDdr {
  import opened Machine
  import opened Status
  import opened RawDumpDefs
  import opened MakeDumpDefs
  import opened CrtText

  const DEFAULT_DDR_NAME_STRING: string := "DDRCS"
  const DEFAULT_DDR_EXT_STRING: string := "BIN"
  const DDR_NAME_STRING_ID_LEN: nat := 3

  /** Section ids the "%d" conversion prints without a sign. */
  const MAX_NAMED_ID: nat := 0x8000_0000

  lemma Pow10Ten()
    ensures Pow10(10) == 10_000_000_000
  {
    assert Pow10(5) == 100_000 by {
      assert Pow10(1) == 10 && Pow10(2) == 100 && Pow10(3) == 1000 && Pow10(4) == 10_000;
    }
    assert Pow10(8) == 100_000_000 by {
      assert Pow10(6) == 1_000_000 && Pow10(7) == 10_000_000;
    }
  }

  /** Every character is a 7-bit ASCII character other than NUL. */
  predicate AsciiText(s: string)
  {
    forall i :: 0 <= i < |s| ==> 0 < s[i] as int < 128
  }

  lemma AsciiTextConcat(a: string, b: string)
    requires AsciiText(a) && AsciiText(b)
    ensures AsciiText(a + b)
  {
    forall i | 0 <= i < |a + b| ensures 0 < (a + b)[i] as int < 128 {
      if i < |a| {
        assert (a + b)[i] == a[i];
      } else {
        assert (a + b)[i] == b[i - |a|];
      }
    }
  }

  /** Decimal digits print as the ASCII characters '0' to '9'. */
  lemma DigitsAreAscii(s: string)
    requires AllDigits(s, 10)
    ensures AsciiText(s)
  {
    forall i | 0 <= i < |s| ensures 0 < s[i] as int < 128 {
      assert DigitValue(s[i], 10).Some?;
    }
  }

  /** The id part of a DDR section name: the decimal id zero-padded to DDR_NAME_STRING_ID_LEN. */
  function IdDigits(id: nat): (s: string)
    requires id < MAX_NAMED_ID
    ensures 3 <= |s| <= 10 && AllDigits(s, 10) && DigitsValue(s, 10) == id
  {
    Pow10Ten();
    DecimalLength(id, 10);
    DecimalRoundTrip(id);
    ZeroPadValue(Decimal(id), DDR_NAME_STRING_ID_LEN);
    ZeroPad(Decimal(id), DDR_NAME_STRING_ID_LEN)
  }

  /** "%s%s.%s" with "DDRCS", the digits d and "BIN". */
  function NameOf(d: string): string
  {
    DEFAULT_DDR_NAME_STRING + d + "." + DEFAULT_DDR_EXT_STRING
  }

  /** The parts of NameOf(d) and, for digits d, its characters. */
  lemma NameOfParts(d: string)
    ensures var s := NameOf(d);
            |s| == |d| + 9 && s[..5] == "DDRCS" && s[5..|s| - 4] == d && s[|s| - 4..] == ".BIN"
    ensures AllDigits(d, 10) ==> AsciiText(NameOf(d))
  {
    var s := NameOf(d);
    assert s == "DDRCS" + (d + ".BIN");
    assert s[5..] == d + ".BIN";
    assert s[5..|s| - 4] == s[5..][..|d|];
    if AllDigits(d, 10) {
      DigitsAreAscii(d);
      AsciiTextConcat(DEFAULT_DDR_NAME_STRING, d);
      AsciiTextConcat(DEFAULT_DDR_NAME_STRING + d, ".");
      AsciiTextConcat(DEFAULT_DDR_NAME_STRING + d + ".", DEFAULT_DDR_EXT_STRING);
    }
  }

  /** The name "%s%03d.%s" prints with "DDRCS", the id and "BIN". */
  function DdrName(id: nat): (s: string)
    requires id < MAX_NAMED_ID
    ensures FitsName(s) && 12 <= |s|
  {
    NameOfParts(IdDigits(id));
    NameOf(IdDigits(id))
  }

  /**
   * A DDR section name is "DDRCS", at least three digits naming the id, and
   * ".BIN"; reading the digits back gives the id.
   */
  lemma DdrNameReadsBack(id: nat)
    requires id < MAX_NAMED_ID
    ensures var s := DdrName(id);
            8 <= |s| - 4 && s[..5] == "DDRCS" && s[|s| - 4..] == ".BIN"
            && AllDigits(s[5..|s| - 4], 10) && DigitsValue(s[5..|s| - 4], 10) == id
  {
    NameOfParts(IdDigits(id));
  }

  /** The id a DDR section name spells between "DDRCS" and ".BIN". */
  function NameId(s: string): nat
    requires |s| >= 9 && AllDigits(s[5..|s| - 4], 10)
  {
    DigitsValue(s[5..|s| - 4], 10)
  }

  lemma DdrNameId(id: nat)
    requires id < MAX_NAMED_ID
    ensures AllDigits(DdrName(id)[5..|DdrName(id)| - 4], 10) && NameId(DdrName(id)) == id
  {
    DdrNameReadsBack(id);
  }

  /** In the Name field of a name without NUL characters, the zero bytes are exactly those past the name. */
  lemma NameFieldZeros(s: string)
    requires FitsName(s) && forall i :: 0 <= i < |s| ==> s[i] != 0 as char
    ensures forall i :: 0 <= i < 20 ==> (NameField(s)[i] == 0 <==> i >= |s|)
  {
    var f := NameField(s);
    forall i | 0 <= i < 20 ensures f[i] == 0 <==> i >= |s| {
      if i < |s| {
        assert f[i] == f[..|s|][i] == s[i] as int;
      } else {
        assert f[i] == f[|s|..][i - |s|];
      }
    }
  }

  /** A name without NUL characters is recovered from its zero-padded Name field. */
  lemma NameFieldInjective(sa: string, sb: string)
    requires FitsName(sa) && FitsName(sb)
    requires forall i :: 0 <= i < |sa| ==> sa[i] != 0 as char
    requires forall i :: 0 <= i < |sb| ==> sb[i] != 0 as char
    requires NameField(sa) == NameField(sb)
    ensures sa == sb
  {
    NameFieldZeros(sa);
    NameFieldZeros(sb);
    assert |sa| == |sb| by {
      var f := NameField(sa);
      assert |sa| < 20 ==> f[|sa|] == 0;
      assert |sb| < 20 ==> f[|sb|] == 0;
    }
    forall i | 0 <= i < |sa| ensures sa[i] == sb[i] {
      assert NameField(sa)[..|sa|][i] == NameField(sb)[..|sb|][i];
    }
  }

  lemma DdrNameHasNoNul(id: nat)
    requires id < MAX_NAMED_ID
    ensures forall i :: 0 <= i < |DdrName(id)| ==> DdrName(id)[i] != 0 as char
  {
    NameOfParts(IdDigits(id));
    assert AsciiText(DdrName(id));
  }

  /** Different ids give different name fields. */
  lemma DdrNamesDistinct(a: nat, b: nat)
    requires a < MAX_NAMED_ID && b < MAX_NAMED_ID && a != b
    ensures NameField(DdrName(a)) != NameField(DdrName(b))
  {
    if NameField(DdrName(a)) == NameField(DdrName(b)) {
      DdrNameHasNoNul(a);
      DdrNameHasNoNul(b);
      NameFieldInjective(DdrName(a), DdrName(b));
      DdrNameId(a);
      DdrNameId(b);
    }
  }

  /**
   * MakeDDRNameString with a 20-byte Name buffer of nameLen bytes: a length
   * above RAW_DUMP_SECTION_HEADER_NAME_LENGTH gives E_INVALIDARG, otherwise
   * the buffer holds the DDR section name.
   */
  function MakeDDRNameString(nameLen: nat, id: nat): (r: (HResult, Option<Name20>))
    requires id < MAX_NAMED_ID
    ensures r.0 == S_OK <==> nameLen <= RAW_DUMP_SECTION_HEADER_NAME_LENGTH
    ensures r.0 != S_OK ==> r.0 == E_INVALIDARG && r.1 == None
    ensures r.0 == S_OK ==> r.1 == Some(NameField(DdrName(id)))
  {
    if RAW_DUMP_SECTION_HEADER_NAME_LENGTH < nameLen then (E_INVALIDARG, None)
    else (S_OK, Some(NameField(DdrName(id))))
  }

  /** The entry UpdateDDRWithDefault (and /DDR) creates for DDR slot id. */
  function DdrSection(id: nat, base: u64, size: u64): (h: SectionHeader)
    requires id < MAX_NAMED_ID
  {
    NewSection(RAW_DUMP_SECTION_TYPE_DDR_RANGE, base, size, NameField(DdrName(id)))
  }

  // ------------------------------------------------------------------ the first loop

  predicate Populated(list: SectionList, j: int)
  {
    0 <= j < |list| && list[j].Some?
  }

  function BaseAt(list: SectionList, j: int): u64
    requires Populated(list, j)
  {
    DdrBase(list[j].value)
  }

  /**
   * The scan of the populated entries from i for a Base above maxBase: each
   * such entry raises maxBase to its Base and sets endDDR to its Base + Size.
   */
  function ScanEnd(list: SectionList, i: nat, maxBase: u64, endDdr: u64): (r: (u64, u64))
    decreases |list| - i
  {
    if i >= |list| then (maxBase, endDdr)
    else if list[i].Some? && DdrBase(list[i].value) > maxBase then
      ScanEnd(list, i + 1, DdrBase(list[i].value), Add64(DdrBase(list[i].value), list[i].value.size))
    else ScanEnd(list, i + 1, maxBase, endDdr)
  }

  /** Entry k is the first populated entry from i with the largest Base, which is m. */
  predicate FirstMaxAt(list: SectionList, i: nat, k: int, m: u64)
  {
    i <= k && Populated(list, k) && BaseAt(list, k) == m
    && (forall j :: i <= j < k && Populated(list, j) ==> BaseAt(list, j) < m)
    && (forall j :: k < j < |list| && Populated(list, j) ==> BaseAt(list, j) <= m)
  }

  /** A raising entry i before the first maximum from i + 1 leaves that maximum the first from i. */
  lemma FirstMaxBeforeRaise(list: SectionList, i: nat, k: int, m: u64)
    requires Populated(list, i) && FirstMaxAt(list, i + 1, k, m) && m > BaseAt(list, i)
    ensures FirstMaxAt(list, i, k, m)
  {
  }

  /** An entry i that does not raise maxBase leaves the first maximum above maxBase from i + 1 the first from i. */
  lemma FirstMaxBeforeSkip(list: SectionList, i: nat, maxBase: u64, k: int, m: u64)
    requires i < |list| && !(Populated(list, i) && BaseAt(list, i) > maxBase)
    requires FirstMaxAt(list, i + 1, k, m) && m > maxBase
    ensures FirstMaxAt(list, i, k, m)
  {
  }

  /** A populated entry i with no larger Base after it is the first maximum from i. */
  lemma FirstMaxHere(list: SectionList, i: nat)
    requires Populated(list, i)
    requires forall j :: i + 1 <= j < |list| && Populated(list, j) ==> BaseAt(list, j) <= BaseAt(list, i)
    ensures FirstMaxAt(list, i, i, BaseAt(list, i))
  {
  }

  /**
   * What the scan finds: with no populated Base above maxBase it keeps both
   * values; otherwise it ends at the first entry with the largest Base, with
   * endDDR that entry's Base + Size (modulo 2^64).
   */
  lemma {:induction false} ScanEndMeaning(list: SectionList, i: nat, maxBase: u64, endDdr: u64)
    requires i <= |list|
    ensures var r := ScanEnd(list, i, maxBase, endDdr);
            (forall j :: i <= j < |list| && Populated(list, j) ==> BaseAt(list, j) <= maxBase) ==> r == (maxBase, endDdr)
    ensures var r := ScanEnd(list, i, maxBase, endDdr);
            (exists j :: i <= j < |list| && Populated(list, j) && BaseAt(list, j) > maxBase) ==>
              exists k :: FirstMaxAt(list, i, k, r.0) && r.0 > maxBase && r.1 == Add64(r.0, list[k].value.size)
    decreases |list| - i
  {
    if i < |list| {
      var r := ScanEnd(list, i, maxBase, endDdr);
      if Populated(list, i) && BaseAt(list, i) > maxBase {
        var b := BaseAt(list, i);
        assert r == ScanEnd(list, i + 1, b, Add64(b, list[i].value.size));
        ScanEndMeaning(list, i + 1, b, Add64(b, list[i].value.size));
        if exists j :: i + 1 <= j < |list| && Populated(list, j) && BaseAt(list, j) > b {
          var k :| FirstMaxAt(list, i + 1, k, r.0) && r.0 > b && r.1 == Add64(r.0, list[k].value.size);
          FirstMaxBeforeRaise(list, i, k, r.0);
        } else {
          FirstMaxHere(list, i);
        }
      } else {
        assert r == ScanEnd(list, i + 1, maxBase, endDdr);
        ScanEndMeaning(list, i + 1, maxBase, endDdr);
        if exists j :: i <= j < |list| && Populated(list, j) && BaseAt(list, j) > maxBase {
          var k :| FirstMaxAt(list, i + 1, k, r.0) && r.0 > maxBase && r.1 == Add64(r.0, list[k].value.size);
          FirstMaxBeforeSkip(list, i, maxBase, k, r.0);
        }
      }
    }
  }

  /** The scan from slot 0, as UpdateDDRWithDefault starts it. */
  lemma ScanFromStart(list: SectionList)
    ensures (forall j :: Populated(list, j) ==> BaseAt(list, j) <= DEFAULT_DDR_SECTIONS_BASE) ==>
              ScanEnd(list, 0, DEFAULT_DDR_SECTIONS_BASE, 0).1 == 0
    ensures (exists j :: Populated(list, j) && BaseAt(list, j) > DEFAULT_DDR_SECTIONS_BASE) ==>
              var r := ScanEnd(list, 0, DEFAULT_DDR_SECTIONS_BASE, 0);
              exists k :: FirstMaxAt(list, 0, k, r.0) && r.1 == Add64(r.0, list[k].value.size)
  {
    ScanEndMeaning(list, 0, DEFAULT_DDR_SECTIONS_BASE, 0);
  }

  /** The first loop of UpdateDDRWithDefault. */
  method ScanMaxBase(list: SectionList) returns (maxBase: u64, endDdr: u64)
    ensures maxBase == ScanEnd(list, 0, DEFAULT_DDR_SECTIONS_BASE, 0).0
    ensures endDdr == ScanEnd(list, 0, DEFAULT_DDR_SECTIONS_BASE, 0).1
  {
    maxBase, endDdr := DEFAULT_DDR_SECTIONS_BASE, 0;
    var i := 0;
    while i < |list|
      invariant 0 <= i <= |list|
      invariant ScanEnd(list, i, maxBase, endDdr) == ScanEnd(list, 0, DEFAULT_DDR_SECTIONS_BASE, 0)
    {
      if list[i].Some? && DdrBase(list[i].value) > maxBase {
        maxBase := DdrBase(list[i].value);
        endDdr := Add64(maxBase, list[i].value.size);
      }
      i := i + 1;
    }
  }

  // ------------------------------------------------------------------ the second loop

  /** The number of null slots of a list. */
  function Holes(s: SectionList): nat
  {
    if |s| == 0 then 0 else (if s[0].None? then 1 else 0) + Holes(s[1..])
  }

  /**
   * The fill from slot i: every null slot gets a DDR entry of `size` bytes
   * at endDDR, and endDDR moves past it.
   */
  function Fill(list: SectionList, i: nat, endDdr: u64, size: u64): (r: SectionList)
    requires |list| <= MAX_NAMED_ID
    ensures |r| == |list|
    decreases |list| - i
  {
    if i >= |list| then list
    else if list[i].None? then Fill(list[i := Some(DdrSection(i, endDdr, size))], i + 1, Add64(endDdr, size), size)
    else Fill(list, i + 1, endDdr, size)
  }

  lemma ReduceSum(x: nat, y: nat)
    ensures ((x % U64_LIMIT) + y) % U64_LIMIT == (x + y) % U64_LIMIT
  {
    var q := x / U64_LIMIT;
    assert x == q * U64_LIMIT + x % U64_LIMIT;
  }

  /** A null slot i moves the Base of every later default entry on by one size. */
  lemma HoleBase(list: SectionList, i: nat, j: nat, endDdr: u64, size: u64)
    requires i < j <= |list| && list[i].None?
    ensures (Add64(endDdr, size) + Holes(list[i + 1..j]) * size) % U64_LIMIT == (endDdr + Holes(list[i..j]) * size) % U64_LIMIT
  {
    assert list[i..j][1..] == list[i + 1..j];
    var h := Holes(list[i + 1..j]);
    assert Holes(list[i..j]) == 1 + h;
    ReduceSum(endDdr + size, h * size);
    assert (endDdr + size) + h * size == endDdr + (1 + h) * size;
  }

  /**
   * Slot j after the fill from slot i: slots before i and populated slots
   * as they were, and a null slot the DDR entry for j whose Base is endDDR
   * plus `size` for every null slot in [i, j), modulo 2^64.
   */
  function Filled(list: SectionList, i: nat, j: nat, endDdr: u64, size: u64): Option<SectionHeader>
    requires i <= |list| <= MAX_NAMED_ID && j < |list|
  {
    if j < i || list[j].Some? then list[j]
    else Some(DdrSection(j, (endDdr + Holes(list[i..j]) * size) % U64_LIMIT, size))
  }

  /** Filling null slot i: slot j's outcome from i + 1 on is its outcome from i. */
  lemma FillHoleSlot(list: SectionList, i: nat, j: nat, endDdr: u64, size: u64)
    requires i < |list| <= MAX_NAMED_ID && j < |list| && list[i].None?
    ensures Filled(list[i := Some(DdrSection(i, endDdr, size))], i + 1, j, Add64(endDdr, size), size)
            == Filled(list, i, j, endDdr, size)
  {
    var l' := list[i := Some(DdrSection(i, endDdr, size))];
    if i < j && list[j].None? {
      assert l'[i + 1..j] == list[i + 1..j];
      HoleBase(list, i, j, endDdr, size);
    } else if j == i {
      assert list[i..i] == [];
    }
  }

  /** Skipping populated slot i: slot j's outcome from i + 1 on is its outcome from i. */
  lemma FillKeptSlot(list: SectionList, i: nat, j: nat, endDdr: u64, size: u64)
    requires i < |list| <= MAX_NAMED_ID && j < |list| && list[i].Some?
    ensures Filled(list, i + 1, j, endDdr, size) == Filled(list, i, j, endDdr, size)
  {
    if i < j && list[j].None? {
      assert list[i..j][1..] == list[i + 1..j];
      assert Holes(list[i..j]) == Holes(list[i + 1..j]);
    }
  }

  /**
   * What the fill from slot i leaves: slots before i and populated slots as
   * they were, and each null slot j the DDR entry for j whose Base is endDDR
   * plus `size` for every null slot in [i, j), modulo 2^64.
   */
  lemma {:induction false} FillMeaning(list: SectionList, i: nat, endDdr: u64, size: u64)
    requires i <= |list| <= MAX_NAMED_ID
    ensures forall j :: 0 <= j < |list| ==> Fill(list, i, endDdr, size)[j] == Filled(list, i, j, endDdr, size)
    decreases |list| - i
  {
    if i < |list| {
      if list[i].None? {
        var l' := list[i := Some(DdrSection(i, endDdr, size))];
        FillMeaning(l', i + 1, Add64(endDdr, size), size);
        forall j | 0 <= j < |list| ensures Fill(list, i, endDdr, size)[j] == Filled(list, i, j, endDdr, size) {
          FillHoleSlot(list, i, j, endDdr, size);
        }
      } else {
        FillMeaning(list, i + 1, endDdr, size);
        forall j | 0 <= j < |list| ensures Fill(list, i, endDdr, size)[j] == Filled(list, i, j, endDdr, size) {
          FillKeptSlot(list, i, j, endDdr, size);
        }
      }
    }
  }

  /** The whole fill from slot 0, slot by slot. */
  lemma FillFromStart(list: SectionList, endDdr: u64, size: u64)
    requires |list| <= MAX_NAMED_ID
    ensures AllPresent(Fill(list, 0, endDdr, size))
    ensures forall j :: 0 <= j < |list| && list[j].Some? ==> Fill(list, 0, endDdr, size)[j] == list[j]
    ensures forall j :: 0 <= j < |list| && list[j].None? ==>
              Fill(list, 0, endDdr, size)[j] == Some(NewSection(RAW_DUMP_SECTION_TYPE_DDR_RANGE,
                                                                (endDdr + Holes(list[..j]) * size) % U64_LIMIT,
                                                                size, NameField(DdrName(j))))
  {
    var r := Fill(list, 0, endDdr, size);
    FillMeaning(list, 0, endDdr, size);
    forall j | 0 <= j < |list| ensures r[j].Some? && (list[j].Some? ==> r[j] == list[j])
      && (list[j].None? ==> r[j] == Some(DdrSection(j, (endDdr + Holes(list[..j]) * size) % U64_LIMIT, size)))
    {
      assert r[j] == Filled(list, 0, j, endDdr, size);
      assert list[..j] == list[0..j];
    }
  }

  /** The second loop of UpdateDDRWithDefault. */
  method FillDefaults(list: SectionList, endDdr: u64, size: u64) returns (list': SectionList)
    requires |list| <= MAX_NAMED_ID
    ensures list' == Fill(list, 0, endDdr, size)
  {
    list' := list;
    var e := endDdr;
    var i := 0;
    while i < |list'|
      invariant 0 <= i <= |list'| == |list|
      invariant Fill(list', i, e, size) == Fill(list, 0, endDdr, size)
    {
      if list'[i].None? {
        var (nameHr, name) := MakeDDRNameString(RAW_DUMP_SECTION_HEADER_NAME_LENGTH, i);
        if Succeeded(nameHr) {
          list' := list'[i := Some(NewSection(RAW_DUMP_SECTION_TYPE_DDR_RANGE, e, size, name.value))];
          e := Add64(e, size);
        }
      }
      i := i + 1;
    }
  }

  /**
   * UpdateDDRWithDefault (the list is never null here, and allocation does
   * not fail). Every slot ends up populated; populated slots keep their
   * entry; a null slot j gets a VALID, DDR-type entry of defaultSize bytes
   * with Offset INVALID, named for j, whose Base follows the default entries
   * before it, starting at the end of the populated entry with the largest
   * Base above DEFAULT_DDR_SECTIONS_BASE, or at 0 when there is none.
   */
  method UpdateDDRWithDefault(list: SectionList, defaultSize: u64) returns (hr: HResult, list': SectionList)
    requires |list| <= MAX_NAMED_ID
    ensures hr == S_OK && |list'| == |list| && AllPresent(list')
    ensures forall j :: 0 <= j < |list| && list[j].Some? ==> list'[j] == list[j]
    ensures forall j :: 0 <= j < |list| && list[j].None? ==>
              list'[j] == Some(NewSection(RAW_DUMP_SECTION_TYPE_DDR_RANGE,
                                          (ScanEnd(list, 0, DEFAULT_DDR_SECTIONS_BASE, 0).1 + Holes(list[..j]) * defaultSize) % U64_LIMIT,
                                          defaultSize, NameField(DdrName(j))))
    ensures (forall j :: Populated(list, j) ==> BaseAt(list, j) <= DEFAULT_DDR_SECTIONS_BASE) ==>
              ScanEnd(list, 0, DEFAULT_DDR_SECTIONS_BASE, 0).1 == 0
    ensures (exists j :: Populated(list, j) && BaseAt(list, j) > DEFAULT_DDR_SECTIONS_BASE) ==>
              var r := ScanEnd(list, 0, DEFAULT_DDR_SECTIONS_BASE, 0);
              exists k :: FirstMaxAt(list, 0, k, r.0) && r.1 == Add64(r.0, list[k].value.size)
  {
    var maxBase, endDdr := ScanMaxBase(list);
    list' := FillDefaults(list, endDdr, defaultSize);
    hr := S_OK;
    ScanFromStart(list);
    FillFromStart(list, endDdr, defaultSize);
  }
}
