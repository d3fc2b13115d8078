// The offline dump tool's merge of separate DDR dump files into one file
// and the DDR memory map it builds for the merged file
// (MergeDDRFiles, test/offdumptool/exe/Dumputil.cpp; DDRSection,
// test/offdumptool/exe/common.h).
module OffdumpMerge {
  import opened Machine
  import opened DdrMemoryMap
  import OU = OffdumpUtil

  /** A /DDR argument: the section's base address and whether it was merged already. */
  datatype DdrArg = DdrArg(base: u64, alreadyMerged: bool)

  /**
   * What the file system does with a section's file: whether it opens,
   * whether its size can be read, its bytes, and whether MergeFile's copy
   * into the merged file succeeds.
   */
  datatype DdrFile = DdrFile(opens: bool, sizeKnown: bool, data: seq<u8>, mergeOk: bool)

  predicate FileOk(f: DdrFile)
  {
    f.opens && f.sizeKnown && f.mergeOk
  }

  /** One choice of the section search: the lowest base found (currentBaseOffset) and sectionid. */
  datatype Pick = Pick(cur: u64, id: nat)

  // ---------------------------------------------------------------- the section search

  /**
   * The search loop from index i with the lowest base so far and its
   * index: sections already merged are passed over, and a base replaces
   * the current one only when strictly lower. When nothing is lower,
   * sectionid keeps its previous value.
   */
  function LowestFrom(a: seq<DdrArg>, i: nat, cur: u64, id: nat): (p: Pick)
    requires i <= |a|
    ensures p.id == id || i <= p.id < |a|
    ensures p.cur <= cur
    decreases |a| - i
  {
    if i == |a| then Pick(cur, id)
    else if a[i].alreadyMerged then LowestFrom(a, i + 1, cur, id)
    else if a[i].base < cur then LowestFrom(a, i + 1, a[i].base, i)
    else LowestFrom(a, i + 1, cur, id)
  }

  /** One full search from currentBaseOffset = 0xFFFFFFFFFFFFFFFF, keeping sectionid `prevId`. */
  function PickLowest(a: seq<DdrArg>, prevId: nat): Pick
  {
    LowestFrom(a, 0, U64_MAX, prevId)
  }

  /** lowestbase: the lowest base among the sections not merged yet, 0xFFFFFFFFFFFFFFFF if none is lower. */
  function LowestBase(a: seq<DdrArg>): u64
  {
    PickLowest(a, 0).cur
  }

  /** Section id marked AlreadyMerged. */
  function Mark(a: seq<DdrArg>, id: nat): (r: seq<DdrArg>)
    ensures |r| == |a|
  {
    if id < |a| then a[id := a[id].(alreadyMerged := true)] else a
  }

  /** The choices of k more turns of the merge loop from sections a, sectionid being prevId. */
  function PicksFrom(a: seq<DdrArg>, prevId: nat, k: nat): (ps: seq<Pick>)
    ensures |ps| == k
    ensures prevId < |a| ==> IdsBelow(ps, |a|)
    decreases k
  {
    if k == 0 then []
    else
      var p := PickLowest(a, prevId);
      [p] + PicksFrom(Mark(a, p.id), p.id, k - 1)
  }

  /** The sections after marking the first k choices of ps. */
  function MarkAll(a: seq<DdrArg>, ps: seq<Pick>, k: nat): (r: seq<DdrArg>)
    requires k <= |ps|
    ensures |r| == |a|
  {
    if k == 0 then a else Mark(MarkAll(a, ps, k - 1), ps[k - 1].id)
  }

  /** The number of sections not merged yet. */
  function Unmerged(a: seq<DdrArg>): nat
  {
    if a == [] then 0 else Unmerged(a[..|a| - 1]) + (if a[|a| - 1].alreadyMerged then 0 else 1)
  }

  /** No section was merged before, and no base is 0xFFFFFFFFFFFFFFFF. */
  predicate Fresh(a: seq<DdrArg>)
  {
    forall i :: 0 <= i < |a| ==> !a[i].alreadyMerged && a[i].base < U64_MAX
  }

  /** Every section not merged yet has a base below 0xFFFFFFFFFFFFFFFF. */
  predicate PendingBelowMax(a: seq<DdrArg>)
  {
    forall i :: 0 <= i < |a| ==> !a[i].alreadyMerged ==> a[i].base < U64_MAX
  }

  /**
   * The search from index i returns at most every pending base from i on,
   * and either leaves the current value and index as they were or returns
   * a pending section from i on with its base.
   */
  lemma {:induction false} LowestFromIsLowest(a: seq<DdrArg>, i: nat, cur: u64, id: nat)
    requires i <= |a|
    ensures var p := LowestFrom(a, i, cur, id);
            forall j :: i <= j < |a| && !a[j].alreadyMerged ==> p.cur <= a[j].base
    ensures var p := LowestFrom(a, i, cur, id);
            p == Pick(cur, id) || (i <= p.id < |a| && !a[p.id].alreadyMerged && p.cur == a[p.id].base)
    decreases |a| - i
  {
    if i < |a| {
      if a[i].alreadyMerged || !(a[i].base < cur) {
        LowestFromIsLowest(a, i + 1, cur, id);
      } else {
        LowestFromIsLowest(a, i + 1, a[i].base, i);
      }
    }
  }

  /** Marking a pending section leaves one fewer pending. */
  lemma {:induction false} MarkPending(a: seq<DdrArg>, id: nat)
    requires id < |a| && !a[id].alreadyMerged
    ensures Unmerged(Mark(a, id)) + 1 == Unmerged(a)
    decreases |a|
  {
    var b := Mark(a, id);
    assert b[..|b| - 1] == if id < |a| - 1 then Mark(a[..|a| - 1], id) else a[..|a| - 1];
    if id < |a| - 1 {
      MarkPending(a[..|a| - 1], id);
    }
  }

  /** When some section is pending, one is. */
  lemma {:induction false} SomePending(a: seq<DdrArg>)
    requires Unmerged(a) > 0
    ensures exists j :: 0 <= j < |a| && !a[j].alreadyMerged
    decreases |a|
  {
    if a[|a| - 1].alreadyMerged {
      SomePending(a[..|a| - 1]);
      var j :| 0 <= j < |a| - 1 && !a[..|a| - 1][j].alreadyMerged;
      assert a[j] == a[..|a| - 1][j];
    }
  }

  /** Without a pending section, every section is merged. */
  lemma {:induction false} NonePending(a: seq<DdrArg>)
    requires Unmerged(a) == 0
    ensures forall j :: 0 <= j < |a| ==> a[j].alreadyMerged
    decreases |a|
  {
    if a != [] {
      NonePending(a[..|a| - 1]);
      assert forall j :: 0 <= j < |a| - 1 ==> a[j] == a[..|a| - 1][j];
    }
  }

  /** A pick of a pending section: the section is pending and its base is the pick's value. */
  predicate PicksPending(a: seq<DdrArg>, ps: seq<Pick>)
  {
    forall j :: 0 <= j < |ps| ==> ps[j].id < |a| && !a[ps[j].id].alreadyMerged && ps[j].cur == a[ps[j].id].base
  }

  predicate DistinctIds(ps: seq<Pick>)
  {
    forall j, l :: 0 <= j < l < |ps| ==> ps[j].id != ps[l].id
  }

  predicate Ascending(ps: seq<Pick>)
  {
    forall j, l :: 0 <= j < l < |ps| ==> ps[j].cur <= ps[l].cur
  }

  /** c is at most every pending base. */
  predicate AtMostPending(c: u64, a: seq<DdrArg>)
  {
    forall i :: 0 <= i < |a| && !a[i].alreadyMerged ==> c <= a[i].base
  }

  /** Marking changes only the marked section's AlreadyMerged. */
  lemma MarkFacts(a: seq<DdrArg>, id: nat)
    ensures forall x :: 0 <= x < |a| ==>
              Mark(a, id)[x].base == a[x].base
              && (Mark(a, id)[x].alreadyMerged <==> a[x].alreadyMerged || x == id)
  {
  }

  /** With a section pending and no pending base at the maximum, a turn picks a pending section with the lowest pending base. */
  lemma FirstPick(a: seq<DdrArg>, prevId: nat)
    requires Unmerged(a) > 0 && PendingBelowMax(a)
    ensures var p := PickLowest(a, prevId);
            p.id < |a| && !a[p.id].alreadyMerged && p.cur == a[p.id].base && AtMostPending(p.cur, a)
  {
    SomePending(a);
    var w :| 0 <= w < |a| && !a[w].alreadyMerged;
    LowestFromIsLowest(a, 0, U64_MAX, prevId);
    assert PickLowest(a, prevId).cur <= a[w].base < U64_MAX;
  }

  /**
   * While sections are pending and none has base 0xFFFFFFFFFFFFFFFF, each
   * turn picks a pending section with the lowest pending base: the picks
   * are distinct pending sections in ascending order of base.
   */
  lemma {:induction false} PicksAreSelectionOrder(a: seq<DdrArg>, prevId: nat, k: nat)
    requires k <= Unmerged(a) && PendingBelowMax(a)
    ensures var ps := PicksFrom(a, prevId, k);
            PicksPending(a, ps) && DistinctIds(ps) && Ascending(ps) && (k > 0 ==> AtMostPending(ps[0].cur, a))
    decreases k
  {
    if k > 0 {
      var ps := PicksFrom(a, prevId, k);
      var p := PickLowest(a, prevId);
      FirstPick(a, prevId);
      var b := Mark(a, p.id);
      MarkPending(a, p.id);
      MarkFacts(a, p.id);
      PicksAreSelectionOrder(b, p.id, k - 1);
      var rest := PicksFrom(b, p.id, k - 1);
      assert ps == [p] + rest;
      assert forall j :: 1 <= j < k ==> ps[j] == rest[j - 1];
      assert PicksPending(a, ps);
      assert DistinctIds(ps) by {
        forall j, l | 0 <= j < l < k ensures ps[j].id != ps[l].id {
          if j > 0 { assert rest[j - 1].id != rest[l - 1].id; }
        }
      }
      assert Ascending(ps) by {
        forall j, l | 0 <= j < l < k ensures ps[j].cur <= ps[l].cur {
          if j > 0 { assert rest[j - 1].cur <= rest[l - 1].cur; }
        }
      }
    }
  }

  /** Some pick chooses section i. */
  predicate Picked(ps: seq<Pick>, i: nat)
  {
    exists j :: 0 <= j < |ps| && ps[j].id == i
  }

  /** As many turns as there are pending sections pick every pending section. */
  lemma {:induction false} PicksCoverPending(a: seq<DdrArg>, prevId: nat)
    requires PendingBelowMax(a)
    ensures forall i :: 0 <= i < |a| && !a[i].alreadyMerged ==> Picked(PicksFrom(a, prevId, Unmerged(a)), i)
    decreases Unmerged(a)
  {
    var k := Unmerged(a);
    if k == 0 {
      NonePending(a);
    } else {
      var p := PickLowest(a, prevId);
      FirstPick(a, prevId);
      var b := Mark(a, p.id);
      MarkPending(a, p.id);
      MarkFacts(a, p.id);
      PicksCoverPending(b, p.id);
      var rest := PicksFrom(b, p.id, k - 1);
      assert PicksFrom(a, prevId, k) == [p] + rest;
      forall i | 0 <= i < |a| && !a[i].alreadyMerged ensures Picked([p] + rest, i) {
        PickedCons(p, rest, i);
      }
    }
  }

  /** Section i is picked by p followed by rest when p picks it or rest does. */
  lemma PickedCons(p: Pick, rest: seq<Pick>, i: nat)
    requires p.id == i || Picked(rest, i)
    ensures Picked([p] + rest, i)
  {
    if p.id != i {
      var j :| 0 <= j < |rest| && rest[j].id == i;
      assert ([p] + rest)[j + 1].id == i;
    } else {
      assert ([p] + rest)[0].id == i;
    }
  }

  // ---------------------------------------------------------------- the merge

  /** Every pick names one of n sections. */
  predicate IdsBelow(ps: seq<Pick>, n: nat)
  {
    forall t :: 0 <= t < |ps| ==> ps[t].id < n
  }

  /** The first turn at or after j whose file fails to open, to size or to merge; |ps| if none. */
  function FirstFailure(files: seq<DdrFile>, ps: seq<Pick>, j: nat): (d: nat)
    requires j <= |ps| && IdsBelow(ps, |files|)
    ensures j <= d <= |ps|
    ensures forall t :: j <= t < d ==> FileOk(files[ps[t].id])
    ensures d < |ps| ==> !FileOk(files[ps[d].id])
    decreases |ps| - j
  {
    if j == |ps| then j
    else if !FileOk(files[ps[j].id]) then j
    else FirstFailure(files, ps, j + 1)
  }

  /** Size of a section's file, as the UINT64 the map stores. */
  function FileSize(f: DdrFile): u64
    requires |f.data| < U64_LIMIT
  {
    |f.data|
  }

  predicate SizesFit(files: seq<DdrFile>)
  {
    forall i :: 0 <= i < |files| ==> |files[i].data| < 0x8000_0000_0000_0000
  }

  /** The bytes merged by the first k turns, in UINT64. */
  function BytesBefore(files: seq<DdrFile>, ps: seq<Pick>, k: nat): u64
    requires k <= |ps| && SizesFit(files) && IdsBelow(ps, |files|)
  {
    if k == 0 then 0 else Add64(BytesBefore(files, ps, k - 1), FileSize(files[ps[k - 1].id]))
  }

  /** TotalDDRSizeInBytes after the first k turns, added onto its previous value. */
  function TotalAfter(total0: u64, files: seq<DdrFile>, ps: seq<Pick>, k: nat): u64
    requires k <= |ps| && SizesFit(files) && IdsBelow(ps, |files|)
  {
    if k == 0 then total0 else Add64(TotalAfter(total0, files, ps, k - 1), FileSize(files[ps[k - 1].id]))
  }

  /** The merged file after the first k turns: their files' bytes one after another. */
  function Concat(files: seq<DdrFile>, ps: seq<Pick>, k: nat): seq<u8>
    requires k <= |ps| && IdsBelow(ps, |files|)
  {
    if k == 0 then [] else Concat(files, ps, k - 1) + files[ps[k - 1].id].data
  }

  /**
   * The map entry of a merged section: the section's base, its file's
   * size, End = Base + Size - 1, Contiguous TRUE, and Offset the place its
   * bytes start in the merged file.
   */
  function EntryFor(args: seq<DdrArg>, files: seq<DdrFile>, p: Pick, offset: u64): Entry
    requires p.id < |args| == |files| && SizesFit(files)
  {
    var base := args[p.id].base;
    var size := FileSize(files[p.id]);
    Entry(base, EndOf(base, size), size, offset, true, 0, 0)
  }

  /** The map of n entries after the first k turns; the rest stay zeroed. */
  function MapAfter(args: seq<DdrArg>, files: seq<DdrFile>, ps: seq<Pick>, n: nat, k: nat): (m: seq<Entry>)
    requires k <= |ps| && |args| == |files| && SizesFit(files) && IdsBelow(ps, |args|)
    ensures |m| == n
  {
    seq(n, j requires 0 <= j < n => if j < k then EntryFor(args, files, ps[j], BytesBefore(files, ps, j)) else ZeroEntry)
  }

  /** The merge loop's state: the sections, the map, TotalDDRSizeInBytes, the bytes merged and the merged file. */
  datatype Progress = Progress(args: seq<DdrArg>, ddrMap: seq<Entry>, total: u64, bytes: u64, merged: seq<u8>)

  /** The loop's state after its first k turns. */
  function After(args: seq<DdrArg>, files: seq<DdrFile>, ps: seq<Pick>, total0: u64, k: nat): Progress
    requires k <= |ps| && |args| == |files| && SizesFit(files)
    requires IdsBelow(ps, |args|)
  {
    Progress(MarkAll(args, ps, k), MapAfter(args, files, ps, |args|, k), TotalAfter(total0, files, ps, k),
             BytesBefore(files, ps, k), Concat(files, ps, k))
  }

  /** One turn of the loop, on the state after k turns. */
  lemma AfterStep(args: seq<DdrArg>, files: seq<DdrFile>, ps: seq<Pick>, total0: u64, k: nat)
    requires k < |ps| <= |args| == |files| && SizesFit(files)
    requires IdsBelow(ps, |args|)
    ensures var st := After(args, files, ps, total0, k);
            var f := files[ps[k].id];
            After(args, files, ps, total0, k + 1)
            == Progress(Mark(st.args, ps[k].id), st.ddrMap[k := EntryFor(args, files, ps[k], st.bytes)],
                        Add64(st.total, FileSize(f)), Add64(st.bytes, FileSize(f)), st.merged + f.data)
  {
    MapAfterStep(args, files, ps, |args|, k);
  }

  /** The context's DDR fields after the first k turns. */
  function MergedContext(ctx: OU.OffContext, args: seq<DdrArg>, files: seq<DdrFile>, ps: seq<Pick>, k: nat): OU.OffContext
    requires k <= |ps| && |args| == |files| < U32_LIMIT && SizesFit(files)
    requires IdsBelow(ps, |args|)
  {
    ctx.(ddrMemoryMapCount := |args|, ddrMemoryMap := MapAfter(args, files, ps, |args|, k),
         stats := ctx.stats.(ddrSectionCount := |args|,
                             totalDDRSizeInBytes := TotalAfter(ctx.stats.totalDDRSizeInBytes, files, ps, k)))
  }

  /**
   * MergeDDRFiles with each map Offset set to where the section's bytes
   * start in the merged file. The map gets DDRCount zeroed entries, and
   * DDRMemoryMapCount and DDRSectionCount become DDRCount. A merged file
   * that cannot be created ends the merge (FALSE). Otherwise DDRCount turns
   * each pick the pending section with the lowest base (sectionid staying
   * put when none is lower), open its file, read its size and append it to
   * the merged file; a failure in any of these ends the merge (FALSE).
   * Each merged section gets its map entry, adds its size to
   * TotalDDRSizeInBytes and is marked AlreadyMerged.
   */
  method MergeDDRFiles(ctx: OU.OffContext, args: seq<DdrArg>, files: seq<DdrFile>, createOk: bool)
    returns (ok: bool, ctx': OU.OffContext, args': seq<DdrArg>, merged: seq<u8>)
    requires |files| == |args| < U32_LIMIT && SizesFit(files)
    ensures var ps := PicksFrom(args, 0, |args|);
            var d := if createOk then FirstFailure(files, ps, 0) else 0;
            (ok <==> createOk && d == |args|)
            && ctx' == MergedContext(ctx, args, files, ps, d)
            && args' == MarkAll(args, ps, d)
            && (ok ==> merged == Concat(files, ps, |args|))
  {
    ghost var ps := PicksFrom(args, 0, |args|);
    var st := Progress(args, seq(|args|, _ => ZeroEntry), ctx.stats.totalDDRSizeInBytes, 0, []);
    assert st == After(args, files, ps, ctx.stats.totalDDRSizeInBytes, 0);
    if createOk {
      // lowestbase; only the Offset as written uses it (AsWrittenOffset)
      var lowest := LowestBaseOf(args);
      ok, st := MergeLoop(args, files, st);
    } else {
      ok := false;
    }
    ctx' := ctx.(ddrMemoryMapCount := |args|, ddrMemoryMap := st.ddrMap,
                 stats := ctx.stats.(ddrSectionCount := |args|, totalDDRSizeInBytes := st.total));
    args', merged := st.args, st.merged;
  }

  /** The merge loop, from the state before its first turn. */
  method MergeLoop(args: seq<DdrArg>, files: seq<DdrFile>, st0: Progress) returns (ok: bool, st: Progress)
    requires |files| == |args| && SizesFit(files)
    requires st0 == After(args, files, PicksFrom(args, 0, |args|), st0.total, 0)
    ensures var ps := PicksFrom(args, 0, |args|);
            var d := FirstFailure(files, ps, 0);
            (ok <==> d == |args|) && st == After(args, files, ps, st0.total, d)
  {
    var n := |args|;
    ghost var ps := PicksFrom(args, 0, n);
    st := st0;
    var sectionId: nat := 0;
    var k := 0;
    while k < n
      invariant k <= n && (sectionId < n || k == 0)
      invariant k == 0 ==> sectionId == 0
      invariant PicksAhead(st.args, sectionId, ps, k)
      invariant forall t :: 0 <= t < k ==> FileOk(files[ps[t].id])
      invariant st == After(args, files, ps, st0.total, k)
    {
      var p := SelectLowest(st.args, sectionId);
      PicksStep(st.args, sectionId, ps, k);
      var f := files[p.id];
      if !f.opens || !f.sizeKnown || !f.mergeOk {
        FirstFailureAt(files, ps, 0, k);
        return false, st;
      }
      AfterStep(args, files, ps, st0.total, k);
      var marked := Mark(st.args, p.id);
      assert forall t :: 0 <= t < k + 1 ==> FileOk(files[ps[t].id]);
      st := Progress(marked, st.ddrMap[k := EntryFor(args, files, p, st.bytes)],
                     Add64(st.total, FileSize(f)), Add64(st.bytes, FileSize(f)), st.merged + f.data);
      sectionId := p.id;
      k := k + 1;
    }
    FirstFailureAt(files, ps, 0, n);
    ok := true;
  }

  /** FirstFailure from j is k when the turns from j to k succeed and turn k, if any, fails. */
  lemma {:induction false} FirstFailureAt(files: seq<DdrFile>, ps: seq<Pick>, j: nat, k: nat)
    requires j <= k <= |ps| && IdsBelow(ps, |files|)
    requires forall t :: j <= t < k ==> FileOk(files[ps[t].id])
    requires k < |ps| ==> !FileOk(files[ps[k].id])
    ensures FirstFailure(files, ps, j) == k
    decreases k - j
  {
    if j < k {
      FirstFailureAt(files, ps, j + 1, k);
    }
  }

  /** The turns from k on, from sections a with sectionid sid, make the picks ps[k..]. */
  predicate PicksAhead(a: seq<DdrArg>, sid: nat, ps: seq<Pick>, k: nat)
    requires k <= |ps|
  {
    PicksFrom(a, sid, |ps| - k) == ps[k..]
  }

  /** One turn of the picks: the first is the search's choice, the rest follow on the marked sections. */
  lemma PicksStep(a: seq<DdrArg>, sid: nat, ps: seq<Pick>, k: nat)
    requires k < |ps| && PicksAhead(a, sid, ps, k)
    ensures ps[k] == PickLowest(a, sid)
    ensures PicksAhead(Mark(a, ps[k].id), ps[k].id, ps, k + 1)
  {
    assert ps[k..][0] == ps[k];
    assert ps[k..][1..] == ps[k + 1..];
  }

  /** The map after one more turn. */
  lemma MapAfterStep(args: seq<DdrArg>, files: seq<DdrFile>, ps: seq<Pick>, n: nat, k: nat)
    requires k < |ps| && k < n && |args| == |files| && SizesFit(files) && IdsBelow(ps, |args|)
    ensures MapAfter(args, files, ps, n, k)[k := EntryFor(args, files, ps[k], BytesBefore(files, ps, k))]
            == MapAfter(args, files, ps, n, k + 1)
  {
  }

  /** The section search loop over all DDRCount sections. */
  method SelectLowest(a: seq<DdrArg>, prevId: nat) returns (p: Pick)
    ensures p == PickLowest(a, prevId)
  {
    var currentBaseOffset: u64 := U64_MAX;
    var sectionId := prevId;
    var index: nat := 0;
    while index < |a|
      invariant index <= |a|
      invariant LowestFrom(a, index, currentBaseOffset, sectionId) == PickLowest(a, prevId)
    {
      if !a[index].alreadyMerged && a[index].base < currentBaseOffset {
        currentBaseOffset, sectionId := a[index].base, index;
      }
      index := index + 1;
    }
    p := Pick(currentBaseOffset, sectionId);
  }

  /** The value the search returns does not depend on the index it starts with. */
  lemma {:induction false} LowestIgnoresId(a: seq<DdrArg>, i: nat, cur: u64, id: nat, id': nat)
    requires i <= |a|
    ensures LowestFrom(a, i, cur, id).cur == LowestFrom(a, i, cur, id').cur
    decreases |a| - i
  {
    if i < |a| {
      LowestIgnoresId(a, i + 1, cur, id, id');
    }
  }

  /** The lowestbase loop before the merge. */
  method LowestBaseOf(a: seq<DdrArg>) returns (lowest: u64)
    ensures lowest == LowestBase(a)
  {
    lowest := U64_MAX;
    var index := 0;
    while index < |a|
      invariant index <= |a|
      invariant LowestFrom(a, index, lowest, 0).cur == LowestBase(a)
    {
      if !a[index].alreadyMerged && a[index].base < lowest {
        LowestIgnoresId(a, index + 1, a[index].base, 0, index);
        lowest := a[index].base;
      }
      index := index + 1;
    }
  }

  // ---------------------------------------------------------------- what the merge promises

  /** With nothing merged before, every section is pending. */
  lemma {:induction false} FreshAllPending(a: seq<DdrArg>)
    requires Fresh(a)
    ensures Unmerged(a) == |a| && PendingBelowMax(a)
    decreases |a|
  {
    if a != [] {
      assert Fresh(a[..|a| - 1]) by {
        assert forall j :: 0 <= j < |a| - 1 ==> a[..|a| - 1][j] == a[j];
      }
      FreshAllPending(a[..|a| - 1]);
    }
  }

  /**
   * With no section merged before and no base at 0xFFFFFFFFFFFFFFFF, the
   * merge takes every section exactly once, in ascending order of base,
   * starting with the lowest.
   */
  lemma FreshMergeOrder(args: seq<DdrArg>)
    requires Fresh(args)
    ensures var ps := PicksFrom(args, 0, |args|);
            DistinctIds(ps) && (forall i :: 0 <= i < |args| ==> Picked(ps, i))
            && (forall j :: 0 <= j < |ps| ==> ps[j].id < |args| && ps[j].cur == args[ps[j].id].base)
            && Ascending(ps)
            && (|args| > 0 ==> ps[0].cur == LowestBase(args))
  {
    FreshAllPending(args);
    PicksAreSelectionOrder(args, 0, |args|);
    PicksCoverPending(args, 0);
  }

  /** A full merge of fresh sections leaves a map sorted by base. */
  lemma FreshMergeMapSorted(args: seq<DdrArg>, files: seq<DdrFile>)
    requires Fresh(args) && |files| == |args| && SizesFit(files)
    ensures SortedByBase(MapAfter(args, files, PicksFrom(args, 0, |args|), |args|, |args|))
  {
    FreshMergeOrder(args);
  }

  /** The bytes counted by the first k turns are the merged file's length, while that stays below 2^64. */
  lemma {:induction false} BytesAreLength(files: seq<DdrFile>, ps: seq<Pick>, k: nat)
    requires k <= |ps| && SizesFit(files) && IdsBelow(ps, |files|)
    requires |Concat(files, ps, k)| < U64_LIMIT
    ensures BytesBefore(files, ps, k) as int == |Concat(files, ps, k)|
    decreases k
  {
    if k > 0 {
      BytesAreLength(files, ps, k - 1);
    }
  }

  /** The merged file after k turns starts with the merged file after j <= k turns. */
  lemma {:induction false} ConcatPrefix(files: seq<DdrFile>, ps: seq<Pick>, j: nat, k: nat)
    requires j <= k <= |ps| && IdsBelow(ps, |files|)
    ensures |Concat(files, ps, j)| <= |Concat(files, ps, k)|
    ensures Concat(files, ps, k)[..|Concat(files, ps, j)|] == Concat(files, ps, j)
    decreases k - j
  {
    if j < k {
      ConcatPrefix(files, ps, j, k - 1);
      var cj, c, x := Concat(files, ps, j), Concat(files, ps, k - 1), files[ps[k - 1].id].data;
      assert Concat(files, ps, k) == c + x;
      PrefixOfAppend(c, x, |cj|);
    }
  }

  /** Appending leaves the first n elements as they were. */
  lemma PrefixOfAppend(c: seq<u8>, x: seq<u8>, n: nat)
    requires n <= |c|
    ensures (c + x)[..n] == c[..n]
  {
  }

  /**
   * The map entry of every section merged in the first d turns locates
   * that section's bytes in the merged file: from Offset on, Size bytes
   * are the section's file (as long as the merged file stays below 2^64
   * bytes).
   */
  lemma EntriesLocateSections(args: seq<DdrArg>, files: seq<DdrFile>, ps: seq<Pick>, d: nat, k: nat)
    requires k < d <= |ps| == |args| == |files| && SizesFit(files) && IdsBelow(ps, |args|)
    requires |Concat(files, ps, d)| < U64_LIMIT
    ensures var e := MapAfter(args, files, ps, |args|, d)[k];
            var m := Concat(files, ps, d);
            e.offset + e.size <= |m| && m[e.offset .. e.offset + e.size] == files[ps[k].id].data
  {
    var e := MapAfter(args, files, ps, |args|, d)[k];
    assert e == EntryFor(args, files, ps[k], BytesBefore(files, ps, k));
    SectionInConcat(files, ps, k, d);
    BytesAreLength(files, ps, k);
  }

  /** Turn k's file lies in the merged file after d > k turns right after the bytes of the first k turns. */
  lemma SectionInConcat(files: seq<DdrFile>, ps: seq<Pick>, k: nat, d: nat)
    requires k < d <= |ps| && IdsBelow(ps, |files|)
    ensures SliceIs(Concat(files, ps, d), |Concat(files, ps, k)|, files[ps[k].id].data)
  {
    var c, x, m := Concat(files, ps, k), files[ps[k].id].data, Concat(files, ps, d);
    assert Concat(files, ps, k + 1) == c + x;
    ConcatPrefix(files, ps, k + 1, d);
    SliceAfterPrefix(m, c, x);
  }

  /** From index at on, m holds x. */
  predicate SliceIs(m: seq<u8>, at: int, x: seq<u8>)
  {
    0 <= at && at + |x| <= |m| && m[at .. at + |x|] == x
  }

  /** When m starts with c + x, the bytes of m from |c| on, |x| of them, are x. */
  lemma SliceAfterPrefix(m: seq<u8>, c: seq<u8>, x: seq<u8>)
    requires |c + x| <= |m| && m[..|c + x|] == c + x
    ensures SliceIs(m, |c|, x)
  {
    assert m[|c| .. |c| + |x|] == (c + x)[|c|..];
  }

  // ---------------------------------------------------------------- Offset as written

  /** The Offset the source stores: base minus lowestbase, or the base itself below lowestbase. */
  function AsWrittenOffset(cur: u64, lowest: u64): (offset: u64)
    ensures cur >= lowest ==> offset as int + lowest as int == cur as int
  {
    if cur >= lowest then cur - lowest else cur
  }

  /** Each section begins right where the previous one (in merge order) ends. */
  predicate Adjacent(files: seq<DdrFile>, ps: seq<Pick>)
    requires IdsBelow(ps, |files|)
  {
    forall j :: 0 <= j < |ps| - 1 ==> ps[j + 1].cur as int == ps[j].cur as int + |files[ps[j].id].data|
  }

  /**
   * When the sections lie back to back, the Offset as written, the base
   * minus the lowest base, is where the section's bytes start in the merged
   * file.
   */
  lemma {:induction false} AsWrittenOffsetAdjacent(files: seq<DdrFile>, ps: seq<Pick>, k: nat)
    requires k < |ps| && SizesFit(files) && IdsBelow(ps, |files|)
    requires Adjacent(files, ps)
    ensures ps[0].cur <= ps[k].cur
    ensures AsWrittenOffset(ps[k].cur, ps[0].cur) as int == |Concat(files, ps, k)|
    decreases k
  {
    if k > 0 {
      AsWrittenOffsetAdjacent(files, ps, k - 1);
    }
  }

  /**
   * With a hole between two sections the Offset as written points past the
   * section's bytes: sections at 0 and 2 of one byte each make a 2-byte
   * merged file, and the second one's Offset is 2 where the intended Offset
   * is 1.
   */
  lemma AsWrittenOffsetWithHole()
    ensures var args := [DdrArg(0, false), DdrArg(2, false)];
            var files := [DdrFile(true, true, [0x11], true), DdrFile(true, true, [0x22], true)];
            var ps := PicksFrom(args, 0, 2);
            ps[1].id == 1 && AsWrittenOffset(ps[1].cur, LowestBase(args)) == 2
            && |Concat(files, ps, 2)| == 2 && BytesBefore(files, ps, 1) == 1
  {
    var args := [DdrArg(0, false), DdrArg(2, false)];
    var files := [DdrFile(true, true, [0x11], true), DdrFile(true, true, [0x22], true)];
    assert LowestFrom(args, 1, 0, 0) == Pick(0, 0);
    assert PickLowest(args, 0) == Pick(0, 0);
    var m := Mark(args, 0);
    assert m == [DdrArg(0, true), DdrArg(2, false)];
    assert LowestFrom(m, 1, U64_MAX, 0) == Pick(2, 1);
    assert PickLowest(m, 0) == Pick(2, 1);
    var ps := PicksFrom(args, 0, 2);
    assert ps == [Pick(0, 0), Pick(2, 1)];
    assert Concat(files, ps, 1) == [0x11];
  }
}
