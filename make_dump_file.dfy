// The raw dump generator's section table and payload writer
// (tools/makeRawDump/makeDumpFile.cpp): the DDR sort, the ADJACENT table
// built from the SV, DDR and CPU lists, the packed offsets, and the test
// pattern written after the table.
module MakeDumpFile {
  import opened Machine
  import opened Status
  import opened RawDumpDefs
  import opened MakeDumpDefs
  import MakeHeader

  // ---------------------------------------------------------------------
  // Section lists with null slots
  // ---------------------------------------------------------------------

  /** n null slots. */
  function Nulls(n: nat): (r: SectionList)
    ensures |r| == n && forall i :: 0 <= i < n ==> r[i] == None
  {
    seq(n, _ => None)
  }

  /** The number of null slots of a list. */
  function NullCount(list: SectionList): (n: nat)
    ensures n <= |list|
  {
    if |list| == 0 then 0 else NullCount(list[..|list| - 1]) + (if list[|list| - 1].None? then 1 else 0)
  }

  lemma {:induction false} NullCountAppend(a: SectionList, b: SectionList)
    ensures NullCount(a + b) == NullCount(a) + NullCount(b)
    decreases |b|
  {
    if |b| == 0 {
      assert a + b == a;
    } else {
      assert (a + b)[..|a + b| - 1] == a + b[..|b| - 1];
      NullCountAppend(a, b[..|b| - 1]);
    }
  }

  lemma {:induction false} AllNull(n: nat)
    ensures NullCount(Nulls(n)) == n
  {
    if n > 0 {
      var s: SectionList := Nulls(n);
      assert s[..n - 1] == Nulls(n - 1);
      AllNull(n - 1);
    }
  }

  lemma {:induction false} NoNulls(list: SectionList)
    requires AllPresent(list)
    ensures NullCount(list) == 0
  {
    if |list| > 0 {
      NoNulls(list[..|list| - 1]);
    }
  }

  /** A table of entries followed by n null slots has n null slots. */
  lemma HeadThenNulls(head: seq<SectionHeader>, n: nat)
    ensures NullCount(Pointers(head) + Nulls(n)) == n
  {
    NullCountAppend(Pointers(head), Nulls(n));
    NoNulls(Pointers(head));
    AllNull(n);
  }

  // ---------------------------------------------------------------------
  // copySectionTable
  // ---------------------------------------------------------------------

  /**
   * The fill loop of copySectionTable: null slots of dst, from the front,
   * take the entries of src in order; once src runs out the loop stops.
   * The second component is the number of src entries used.
   */
  datatype Filled = Filled(table: SectionList, used: nat)

  function Fill(dst: SectionList, src: SectionList): (r: Filled)
    ensures |r.table| == |dst| && r.used <= |src|
  {
    if |dst| == 0 then Filled([], 0)
    else if dst[0].Some? then
      var t := Fill(dst[1..], src);
      Filled([dst[0]] + t.table, t.used)
    else if |src| > 0 then
      var t := Fill(dst[1..], src[1..]);
      Filled([src[0]] + t.table, t.used + 1)
    else Filled(dst, 0)
  }

  /** The list copySectionTable fills: dst, grown by the missing slots (UINT arithmetic). */
  function Grown(dst: SectionList, src: SectionList): SectionList
  {
    var nEmpty := NullCount(dst) % U32_LIMIT;
    if nEmpty < |src| then Resize(dst, (|dst| + (|src| - nEmpty)) % U32_LIMIT) else dst
  }

  /** copySectionTable: the outcome and the destination as it leaves it. */
  function CopiedTable(dst: SectionList, src: SectionList): (HResult, SectionList)
  {
    if |src| == 0 then (S_OK, dst)
    else
      var f := Fill(Grown(dst, src), src);
      (if f.used == |src| then S_OK else E_FAIL, f.table)
  }

  /** Filled slots are kept in place; null slots before src runs out take its entries. */
  lemma {:induction false} FillKeepsEntries(dst: SectionList, src: SectionList)
    ensures forall i :: 0 <= i < |dst| && dst[i].Some? ==> Fill(dst, src).table[i] == dst[i]
    decreases |dst|
  {
    if |dst| > 0 {
      if dst[0].Some? {
        FillKeepsEntries(dst[1..], src);
      } else if |src| > 0 {
        FillKeepsEntries(dst[1..], src[1..]);
      }
      forall i | 0 <= i < |dst| && dst[i].Some?
        ensures Fill(dst, src).table[i] == dst[i]
      {
        if i > 0 {
          assert dst[1..][i - 1] == dst[i];
        }
      }
    }
  }

  /** With at least as many null slots as src entries, every src entry is placed. */
  lemma {:induction false} FillUsesAll(dst: SectionList, src: SectionList)
    requires |src| <= NullCount(dst)
    ensures Fill(dst, src).used == |src|
    decreases |dst|
  {
    if |dst| > 0 {
      NullCountAppend([dst[0]], dst[1..]);
      assert [dst[0]] + dst[1..] == dst;
      assert NullCount([dst[0]]) == (if dst[0].None? then 1 else 0) by {
        assert [dst[0]][..0] == [];
      }
      if dst[0].Some? {
        FillUsesAll(dst[1..], src);
      } else if |src| > 0 {
        FillUsesAll(dst[1..], src[1..]);
      }
    }
  }

  lemma PointersTail(s: seq<SectionHeader>)
    requires 0 < |s|
    ensures Pointers(s)[0] == Some(s[0]) && Pointers(s)[1..] == Pointers(s[1..])
  {
  }

  /** Null slots only, filled from a source that fits: the source, then the null slots left. */
  lemma {:induction false} FillNulls(n: nat, src: seq<SectionHeader>)
    requires |src| <= n
    ensures Fill(Nulls(n), Pointers(src)) == Filled(Pointers(src) + Nulls(n - |src|), |src|)
    decreases |src|
  {
    var dst: SectionList := Nulls(n);
    if |src| == 0 {
      assert Pointers(src) == [];
      assert Pointers(src) + Nulls(n) == dst;
      if n > 0 {
        assert dst[0] == None;
      }
    } else {
      assert dst[0] == None && dst[1..] == Nulls(n - 1);
      PointersTail(src);
      FillNulls(n - 1, src[1..]);
      assert Pointers(src) == [Some(src[0])] + Pointers(src[1..]);
    }
  }

  /** One filled slot in front is kept and the rest of the list is filled. */
  lemma FillFilledHead(dst: SectionList, src: SectionList)
    requires 0 < |dst| && dst[0].Some?
    ensures Fill(dst, src) == Filled([dst[0]] + Fill(dst[1..], src).table, Fill(dst[1..], src).used)
  {
  }

  /** Filled slots in front are passed over. */
  lemma {:induction false} FillPastHead(head: seq<SectionHeader>, rest: SectionList, src: SectionList)
    ensures Fill(Pointers(head) + rest, src) == Filled(Pointers(head) + Fill(rest, src).table, Fill(rest, src).used)
    decreases |head|
  {
    if |head| > 0 {
      var dst := Pointers(head) + rest;
      var f := Fill(rest, src);
      PointersTail(head);
      assert dst[0] == Some(head[0]) && dst[1..] == Pointers(head[1..]) + rest;
      FillFilledHead(dst, src);
      FillPastHead(head[1..], rest, src);
      assert Pointers(head) == [Some(head[0])] + Pointers(head[1..]);
      assert [dst[0]] + (Pointers(head[1..]) + f.table) == Pointers(head) + f.table;
    } else {
      assert Pointers(head) == [];
      assert Pointers(head) + rest == rest;
      assert Pointers(head) + Fill(rest, src).table == Fill(rest, src).table;
    }
  }

  lemma PointersAppend(a: seq<SectionHeader>, b: seq<SectionHeader>)
    ensures Pointers(a + b) == Pointers(a) + Pointers(b)
  {
  }

  /** Filling entries followed by n null slots appends the source after the entries. */
  lemma FillPacked(head: seq<SectionHeader>, n: nat, src: seq<SectionHeader>)
    requires |src| <= n
    ensures Fill(Pointers(head) + Nulls(n), Pointers(src))
            == Filled(Pointers(head + src) + Nulls(n - |src|), |src|)
  {
    FillPastHead(head, Nulls(n), Pointers(src));
    FillNulls(n, src);
    PointersAppend(head, src);
  }

  /** Resizing adds null slots. */
  lemma ResizeNulls(list: SectionList, newSize: nat)
    ensures NullCount(Resize(list, newSize)) == NullCount(list) + (Max(|list|, newSize) - |list|)
  {
    if newSize > |list| {
      assert Resize(list, newSize) == list + Nulls(newSize - |list|);
      NullCountAppend(list, Nulls(newSize - |list|));
      AllNull(newSize - |list|);
    }
  }

  /**
   * copySectionTable keeps every filled destination slot, and when the
   * grown size fits in a UINT every source entry is placed (no E_FAIL).
   */
  lemma CopyKeepsAndCompletes(dst: SectionList, src: SectionList)
    ensures |CopiedTable(dst, src).1| >= |dst|
    ensures forall i :: 0 <= i < |dst| && dst[i].Some? ==> CopiedTable(dst, src).1[i] == dst[i]
    ensures |dst| + |src| < U32_LIMIT ==> CopiedTable(dst, src).0 == S_OK
  {
    if |src| > 0 {
      var g := Grown(dst, src);
      ResizeOnlyGrows(dst, (|dst| + (|src| - NullCount(dst) % U32_LIMIT)) % U32_LIMIT);
      assert forall i :: 0 <= i < |dst| ==> g[i] == dst[i];
      FillKeepsEntries(g, src);
      if |dst| + |src| < U32_LIMIT {
        var nEmpty := NullCount(dst);
        ModOfSmall(nEmpty, U32_LIMIT);
        if nEmpty < |src| {
          var newSize := |dst| + (|src| - nEmpty);
          ModOfSmall(newSize, U32_LIMIT);
          assert g == Resize(dst, newSize);
          ResizeNulls(dst, newSize);
          assert NullCount(g) == |src|;
        } else {
          assert g == dst;
        }
        FillUsesAll(g, src);
      }
    }
  }

  /**
   * On a table of entries followed by n null slots, and a source without
   * null slots, copySectionTable appends the source entries after the
   * table's own, growing the table only as far as needed.
   */
  lemma CopyAppends(dst: SectionList, head: seq<SectionHeader>, n: nat, src: SectionList)
    requires dst == Pointers(head) + Nulls(n)
    requires AllPresent(src) && |head| + n < U32_LIMIT && |head| + |src| < U32_LIMIT
    ensures CopiedTable(dst, src).0 == S_OK
    ensures CopiedTable(dst, src).1 == Pointers(head + Present(src)) + Nulls(n - Min(n, |src|))
  {
    HeadThenNulls(head, n);
    assert Pointers(Present(src)) == src;
    if |src| == 0 {
      assert head + Present(src) == head;
    } else {
      ModOfSmall(n, U32_LIMIT);
      if n < |src| {
        var newSize := |dst| + (|src| - n);
        ModOfSmall(newSize, U32_LIMIT);
        assert Grown(dst, src) == Pointers(head) + Nulls(|src|) by {
          assert Grown(dst, src) == dst + Nulls(newSize - |dst|);
          var nulls: SectionList := Nulls(n);
          assert nulls + Nulls(newSize - |dst|) == Nulls(|src|);
        }
        FillPacked(head, |src|, Present(src));
      } else {
        FillPacked(head, n, Present(src));
      }
    }
  }

  /** The null slots of a list, counted by a loop (the first loop of copySectionTable). */
  method CountNulls(list: SectionList) returns (nEmpty: u32)
    ensures nEmpty == NullCount(list) % U32_LIMIT
  {
    nEmpty := 0;
    var i := 0;
    while i < |list|
      invariant 0 <= i <= |list| && nEmpty == NullCount(list[..i]) % U32_LIMIT
    {
      assert list[..i + 1][..i] == list[..i];
      if list[i].None? {
        nEmpty := Add32(nEmpty, 1);
      }
      i := i + 1;
    }
    assert list[..i] == list;
  }

  /** One slot of the fill loop: a filled slot is passed over, a null one takes the next entry. */
  lemma FillStep(dst: SectionList, src: SectionList, i: nat, j: nat)
    requires i < |dst| && j <= |src|
    ensures dst[i].Some? ==> Fill(dst[i..], src[j..]) == Filled([dst[i]] + Fill(dst[i + 1..], src[j..]).table, Fill(dst[i + 1..], src[j..]).used)
    ensures dst[i].None? && j < |src| ==>
              Fill(dst[i..], src[j..]) == Filled([src[j]] + Fill(dst[i + 1..], src[j + 1..]).table, Fill(dst[i + 1..], src[j + 1..]).used + 1)
    ensures dst[i].None? && j == |src| ==> Fill(dst[i..], src[j..]) == Filled(dst[i..], 0)
  {
    assert dst[i..][0] == dst[i] && dst[i..][1..] == dst[i + 1..];
    if j < |src| {
      assert src[j..][0] == src[j] && src[j..][1..] == src[j + 1..];
    }
  }

  /** Slots before i are final and slots from i on are still those of dst. */
  predicate FillSoFar(dst: SectionList, src: SectionList, cur: SectionList, i: nat, j: nat)
  {
    i <= |dst| && j <= |src| && |cur| == |dst| && cur[i..] == dst[i..]
    && Fill(dst, src).table == cur[..i] + Fill(dst[i..], src[j..]).table
    && Fill(dst, src).used == j + Fill(dst[i..], src[j..]).used
  }

  /** The slot the fill loop looks at next is still the one of dst. */
  lemma FillSoFarSlot(dst: SectionList, src: SectionList, cur: SectionList, i: nat, j: nat)
    requires FillSoFar(dst, src, cur, i, j) && i < |dst|
    ensures cur[i] == dst[i]
  {
    assert cur[i..][0] == dst[i..][0];
  }

  /** The fill loop passes over a filled slot. */
  lemma FillSoFarKeep(dst: SectionList, src: SectionList, cur: SectionList, i: nat, j: nat)
    requires FillSoFar(dst, src, cur, i, j) && i < |dst| && cur[i].Some?
    ensures FillSoFar(dst, src, cur, i + 1, j)
  {
    FillSoFarSlot(dst, src, cur, i, j);
    FillStep(dst, src, i, j);
    var t := Fill(dst[i + 1..], src[j..]).table;
    assert cur[..i] + ([cur[i]] + t) == cur[..i + 1] + t;
    assert cur[i + 1..] == cur[i..][1..];
  }

  /** The fill loop puts the next source entry into a null slot. */
  lemma FillSoFarPlace(dst: SectionList, src: SectionList, cur: SectionList, i: nat, j: nat)
    requires FillSoFar(dst, src, cur, i, j) && i < |dst| && cur[i].None? && j < |src|
    ensures FillSoFar(dst, src, cur[i := src[j]], i + 1, j + 1)
  {
    FillSoFarSlot(dst, src, cur, i, j);
    FillStep(dst, src, i, j);
    var next := cur[i := src[j]];
    var t := Fill(dst[i + 1..], src[j + 1..]).table;
    assert cur[..i] + ([src[j]] + t) == next[..i + 1] + t;
    assert next[i + 1..] == cur[i..][1..];
  }

  /** The fill loop stops at a null slot once the source is used up: the fill is complete. */
  lemma FillSoFarStop(dst: SectionList, src: SectionList, cur: SectionList, i: nat, j: nat)
    requires FillSoFar(dst, src, cur, i, j) && i < |dst| && cur[i].None? && j == |src|
    ensures Fill(dst, src) == Filled(cur, j)
  {
    FillSoFarSlot(dst, src, cur, i, j);
    FillStep(dst, src, i, j);
    assert cur == cur[..i] + cur[i..];
  }

  /** The fill loop of copySectionTable, with the next slot i and the next source entry j. */
  method FillSlots(dst: SectionList, src: SectionList) returns (dst': SectionList, used: nat)
    ensures Fill(dst, src) == Filled(dst', used)
  {
    dst' := dst;
    var i, j := 0, 0;
    assert dst[0..] == dst && src[0..] == src && dst'[..0] + Fill(dst, src).table == Fill(dst, src).table;
    while i < |dst'|
      invariant FillSoFar(dst, src, dst', i, j)
    {
      if dst'[i].Some? {
        FillSoFarKeep(dst, src, dst', i, j);
      } else if j < |src| {
        FillSoFarPlace(dst, src, dst', i, j);
        dst' := dst'[i := src[j]];
        j := j + 1;
      } else {
        FillSoFarStop(dst, src, dst', i, j);
        used := j;
        return;
      }
      i := i + 1;
    }
    assert dst[i..] == [] && dst'[..i] == dst';
    assert Fill(dst[i..], src[j..]) == Filled([], 0);
    used := j;
  }

  /** copySectionTable. The references are never null here, so E_INVALIDARG does not arise. */
  method CopySectionTable(dst: SectionList, src: SectionList) returns (hr: HResult, dst': SectionList)
    ensures (hr, dst') == CopiedTable(dst, src)
  {
    hr, dst' := S_OK, dst;
    if |src| > 0 {
      var nEmpty := CountNulls(dst);
      if nEmpty < |src| {
        var newSize := (|dst| + (|src| - nEmpty)) % U32_LIMIT;
        dst' := Resize(dst, newSize);
      }
      var used;
      dst', used := FillSlots(dst', src);
      if used != |src| {
        hr := E_FAIL;
      }
    }
  }

  // ---------------------------------------------------------------------
  // sortVector and sortDDRSectionTable
  // ---------------------------------------------------------------------

  /** The sort key: the DDR Base, negated for DESCENDING. */
  function Key(h: SectionHeader, order: Order): int
  {
    if order == Descending then -(DdrBase(h) as int) else DdrBase(h) as int
  }

  /** Ascending by Base for ASCENDING, descending for DESCENDING. */
  predicate SortedBy(s: seq<SectionHeader>, order: Order)
  {
    forall i, j :: 0 <= i < j < |s| ==> Key(s[i], order) <= Key(s[j], order)
  }

  lemma SortedByBase(s: seq<SectionHeader>, order: Order)
    requires SortedBy(s, order)
    ensures order == Ascending ==> forall i, j :: 0 <= i < j < |s| ==> DdrBase(s[i]) <= DdrBase(s[j])
    ensures order == Descending ==> forall i, j :: 0 <= i < j < |s| ==> DdrBase(s[i]) >= DdrBase(s[j])
  {
    assert forall i, j :: 0 <= i < j < |s| ==> Key(s[i], order) <= Key(s[j], order);
  }

  function Swap(s: seq<SectionHeader>, d: nat): (r: seq<SectionHeader>)
    requires d + 1 < |s|
    ensures |r| == |s| && multiset(r) == multiset(s)
    ensures r[d] == s[d + 1] && r[d + 1] == s[d] && forall k :: 0 <= k < |s| && k != d && k != d + 1 ==> r[k] == s[k]
  {
    var r := s[d := s[d + 1]][d + 1 := s[d]];
    assert s == s[..d] + [s[d], s[d + 1]] + s[d + 2..];
    assert r == s[..d] + [s[d + 1], s[d]] + s[d + 2..];
    r
  }

  /** The last `from` positions are in order and no earlier entry exceeds them. */
  predicate TopSorted(t: seq<SectionHeader>, from: nat, order: Order)
    requires from <= |t|
  {
    (forall i, j :: from <= i < j < |t| ==> Key(t[i], order) <= Key(t[j], order))
    && (forall i, j :: 0 <= i < from <= j < |t| ==> Key(t[i], order) <= Key(t[j], order))
  }

  /** No entry up to position d has a larger key than entry d. */
  predicate MaxAt(t: seq<SectionHeader>, d: nat, order: Order)
    requires d < |t|
  {
    forall i :: 0 <= i <= d ==> Key(t[i], order) <= Key(t[d], order)
  }

  /** The largest key of the unsorted part, at its top, joins the sorted part. */
  lemma TopSortedGrows(t: seq<SectionHeader>, top: nat, order: Order)
    requires 0 < top <= |t| && TopSorted(t, top, order) && MaxAt(t, top - 1, order)
    ensures TopSorted(t, top - 1, order)
  {
  }

  /** The compare-and-swap of positions d and d+1 in sortVector's inner loop. */
  function BubbleStep(t: seq<SectionHeader>, d: nat, order: Order): (r: seq<SectionHeader>)
    requires d + 1 < |t|
    ensures |r| == |t| && multiset(r) == multiset(t)
  {
    if (order == Ascending && DdrBase(t[d]) > DdrBase(t[d + 1]))
       || (order == Descending && DdrBase(t[d]) < DdrBase(t[d + 1]))
    then Swap(t, d) else t
  }

  /** The largest key so far moves up one place; the sorted top is untouched. */
  lemma BubbleStepCarriesMax(t: seq<SectionHeader>, d: nat, top: nat, order: Order)
    requires order == Ascending || order == Descending
    requires d + 1 < top <= |t| && TopSorted(t, top, order)
    requires MaxAt(t, d, order)
    ensures TopSorted(BubbleStep(t, d, order), top, order)
    ensures MaxAt(BubbleStep(t, d, order), d + 1, order)
  {
    var r := BubbleStep(t, d, order);
    if r != t {
      assert r == Swap(t, d);
      assert Key(t[d + 1], order) < Key(t[d], order);
      forall i | 0 <= i <= d + 1
        ensures Key(r[i], order) <= Key(r[d + 1], order)
      {
        if i < d {
          assert r[i] == t[i];
        }
      }
      forall i, j | 0 <= i < top <= j < |t|
        ensures Key(r[i], order) <= Key(r[j], order)
      {
        assert r[j] == t[j];
        if i != d && i != d + 1 {
          assert r[i] == t[i];
        }
      }
      forall i, j | top <= i < j < |t|
        ensures Key(r[i], order) <= Key(r[j], order)
      {
        assert r[i] == t[i] && r[j] == t[j];
      }
    } else {
      assert Key(t[d], order) <= Key(t[d + 1], order);
    }
  }

  /** One inner pass of the bubble sort, carrying the prefix maximum to position top-1. */
  method BubblePass(t0: seq<SectionHeader>, top: nat, order: Order) returns (t: seq<SectionHeader>)
    requires order == Ascending || order == Descending
    requires 0 < top <= |t0| && TopSorted(t0, top, order)
    ensures |t| == |t0| && multiset(t) == multiset(t0) && TopSorted(t, top - 1, order)
  {
    t := t0;
    var d := 0;
    while d < top - 1
      invariant 0 <= d <= top - 1 && |t| == |t0| && multiset(t) == multiset(t0)
      invariant TopSorted(t, top, order)
      invariant MaxAt(t, d, order)
    {
      BubbleStepCarriesMax(t, d, top, order);
      t := BubbleStep(t, d, order);
      d := d + 1;
    }
    TopSortedGrows(t, top, order);
  }

  /**
   * sortVector. ASCENDING and DESCENDING bubble-sort the list by Base
   * (each entry is dereferenced, so the slots are filled); any other order
   * gives E_INVALIDARG and leaves the list as it was.
   */
  method SortVector(list: SectionList, order: Order) returns (hr: HResult, list': SectionList)
    requires order == Ascending || order == Descending ==> 0 < |list| && AllPresent(list)
    ensures hr == S_OK <==> order == Ascending || order == Descending
    ensures hr != S_OK ==> hr == E_INVALIDARG && list' == list
    ensures hr == S_OK ==> AllPresent(list') && multiset(Present(list')) == multiset(Present(list))
                           && SortedBy(Present(list'), order)
  {
    if order != Ascending && order != Descending {
      return E_INVALIDARG, list;
    }
    var t := Present(list);
    var n := |t|;
    var c := 0;
    while c < n - 1
      invariant 0 <= c <= n - 1 && |t| == n && multiset(t) == multiset(Present(list))
      invariant TopSorted(t, n - c, order)
    {
      t := BubblePass(t, n - c, order);
      c := c + 1;
    }
    hr, list' := S_OK, Pointers(t);
  }

  /**
   * sortDDRSectionTable: ASCENDING and DESCENDING sort, AS_LISTED (and any
   * other value but RANDOM) leaves the list as it is.
   */
  method SortDdrSectionTable(list: SectionList, order: Order) returns (hr: HResult, list': SectionList)
    requires order != Random
    requires order == Ascending || order == Descending ==> 0 < |list| && AllPresent(list)
    ensures hr == S_OK
    ensures order != Ascending && order != Descending ==> list' == list
    ensures AllPresent(list) ==> AllPresent(list') && multiset(Present(list')) == multiset(Present(list))
    ensures order == Ascending || order == Descending ==> SortedBy(Present(list'), order)
  {
    if order == Ascending || order == Descending {
      hr, list' := SortVector(list, order);
    } else {
      hr, list' := S_OK, list;
    }
  }

  // ---------------------------------------------------------------------
  // setTableOffsets
  // ---------------------------------------------------------------------

  /** Entry i's offset once the table is packed from `start`: the sizes before it, modulo 2^64. */
  function PackedOffset(t: seq<SectionHeader>, start: u64, i: nat): u64
    requires i <= |t|
  {
    (start + SumSizes(t[..i])) % U64_LIMIT
  }

  /** Each packed entry starts where the previous one ends, modulo 2^64. */
  lemma PackedOffsetStep(t: seq<SectionHeader>, start: u64, i: nat)
    requires 0 < i <= |t|
    ensures PackedOffset(t, start, i) == Add64(PackedOffset(t, start, i - 1), t[i - 1].size)
  {
    assert t[..i][..i - 1] == t[..i - 1];
    MakeHeader.AddReduced(start + SumSizes(t[..i - 1]), t[i - 1].size);
  }

  /** The packing starts at `start` and ends at start plus the sum of all sizes, modulo 2^64. */
  lemma PackingEnds(t: seq<SectionHeader>, start: u64)
    ensures PackedOffset(t, start, 0) == start
    ensures PackedOffset(t, start, |t|) == (start + SumSizes(t)) % U64_LIMIT
  {
    assert t[..0] == [] && t[..|t|] == t;
  }

  /**
   * setTableOffsets: every entry after the first starts where the previous
   * one ends (UINT64 arithmetic), so entry i sits at the first entry's
   * offset plus the sizes before it; nothing else changes.
   */
  method SetTableOffsets(table: SectionList) returns (table': SectionList)
    requires AllPresent(table)
    ensures AllPresent(table') && |table'| == |table|
    ensures forall i :: 0 <= i < |table| ==>
              Present(table')[i] == Present(table)[i].(offset := PackedOffset(Present(table), table[0].value.offset, i))
  {
    if |table| == 0 {
      return table;
    }
    var t := Present(table);
    var start := t[0].offset;
    var u := t;
    var idx := 1;
    assert t[..0] == [];
    while idx < |u|
      invariant 1 <= idx <= |t| && |u| == |t|
      invariant forall k :: 0 <= k < idx ==> u[k] == t[k].(offset := PackedOffset(t, start, k))
      invariant forall k :: idx <= k < |t| ==> u[k] == t[k]
    {
      PackedOffsetStep(t, start, idx);
      u := u[idx := u[idx].(offset := Add64(u[idx - 1].offset, u[idx - 1].size))];
      idx := idx + 1;
    }
    table' := Pointers(u);
  }

  /** Entries of equal sizes have equal size sums. */
  lemma {:induction false} SameSizesSameSum(a: seq<SectionHeader>, b: seq<SectionHeader>)
    requires |a| == |b| && forall i :: 0 <= i < |a| ==> a[i].size == b[i].size
    ensures SumSizes(a) == SumSizes(b)
  {
    if |a| > 0 {
      SameSizesSameSum(a[..|a| - 1], b[..|b| - 1]);
    }
  }

  /** Setting an entry's offset does not move any packed offset. */
  lemma PackedOffsetIgnoresOffsets(a: seq<SectionHeader>, b: seq<SectionHeader>, start: u64, i: nat)
    requires |a| == |b| && i <= |a| && forall k :: 0 <= k < |a| ==> a[k].size == b[k].size
    ensures PackedOffset(a, start, i) == PackedOffset(b, start, i)
  {
    SameSizesSameSum(a[..i], b[..i]);
  }

  // ---------------------------------------------------------------------
  // CreateFullSectionsTable
  // ---------------------------------------------------------------------

  /** The ADJACENT table before its offsets: all SV entries, then all DDR, then all CPU. */
  function AdjacentOrder(sv: SectionList, ddr: SectionList, cpu: SectionList): seq<SectionHeader>
    requires AllPresent(sv) && AllPresent(ddr) && AllPresent(cpu)
  {
    Present(sv) + Present(ddr) + Present(cpu)
  }

  /** The ADJACENT branch: the three copies into a table of one null slot per section. */
  method CopyAdjacent(count: u32, sv: SectionList, ddr: SectionList, cpu: SectionList) returns (hr: HResult, table: SectionList)
    requires AllPresent(sv) && AllPresent(ddr) && AllPresent(cpu) && count == |sv| + |ddr| + |cpu|
    ensures hr == S_OK && table == Pointers(AdjacentOrder(sv, ddr, cpu))
  {
    table := Nulls(count);
    assert table == Pointers([]) + Nulls(count);
    CopyAppends(table, [], count, sv);
    assert [] + Present(sv) == Present(sv);
    hr, table := CopySectionTable(table, sv);
    CopyAppends(table, Present(sv), |ddr| + |cpu|, ddr);
    hr, table := CopySectionTable(table, ddr);
    CopyAppends(table, Present(sv) + Present(ddr), |cpu|, cpu);
    hr, table := CopySectionTable(table, cpu);
    assert table == Pointers(AdjacentOrder(sv, ddr, cpu)) + [];
  }

  /** Entry 0 takes the payload offset and setTableOffsets packs the rest after it. */
  method PlaceTable(table: SectionList, payloadOffset: u64) returns (placed: SectionList)
    requires AllPresent(table) && 0 < |table|
    ensures AllPresent(placed) && |placed| == |table|
    ensures forall i :: 0 <= i < |table| ==>
              Present(placed)[i] == Present(table)[i].(offset := PackedOffset(Present(table), payloadOffset, i))
  {
    var first := table[0 := Some(table[0].value.(offset := payloadOffset))];
    ghost var t, f := Present(table), Present(first);
    assert forall k :: 0 <= k < |t| ==> f[k].size == t[k].size && (k > 0 ==> f[k] == t[k]);
    placed := SetTableOffsets(first);
    forall i | 0 <= i < |t|
      ensures Present(placed)[i] == t[i].(offset := PackedOffset(t, payloadOffset, i))
    {
      PackedOffsetIgnoresOffsets(f, t, payloadOffset, i);
    }
  }

  /**
   * CreateFullSectionsTable with the ADJACENT proximity: SectionsCount is
   * the number of sections, the payload starts right after the section
   * table, the DDR list is sorted in place as the order says, and the table
   * holds the SV, DDR and CPU entries in that order, packed from the
   * payload offset. The lists are all filled (UpdateDDRWithDefault and
   * UpdateSVWithDefault run first) and entry 0 exists, since the code
   * dereferences it.
   */
  method CreateFullSectionsTable(cfg: Config) returns (hr: HResult, cfg': Config)
    requires cfg.ddrProximity == Adjacent && cfg.ddrOrder != Random
    requires AllPresent(cfg.sectionSV) && AllPresent(cfg.sectionDDR) && AllPresent(cfg.sectionCPU)
    requires 0 < |cfg.sectionDDR| && |cfg.sectionSV| + |cfg.sectionDDR| + |cfg.sectionCPU| < U32_LIMIT
    ensures hr == S_OK
    ensures var count := |cfg.sectionSV| + |cfg.sectionDDR| + |cfg.sectionCPU|;
            cfg' == cfg.(dumpFileHeader := cfg.dumpFileHeader.(sectionsCount := count),
                         payloadOffset := (cfg.sectionTableOffset + SectionTableSize(count)) % U64_LIMIT,
                         sectionDDR := cfg'.sectionDDR, dumpFileSections := cfg'.dumpFileSections)
    ensures AllPresent(cfg'.sectionDDR) && multiset(Present(cfg'.sectionDDR)) == multiset(Present(cfg.sectionDDR))
    ensures cfg.ddrOrder == Ascending || cfg.ddrOrder == Descending ==> SortedBy(Present(cfg'.sectionDDR), cfg.ddrOrder)
    ensures cfg.ddrOrder != Ascending && cfg.ddrOrder != Descending ==> cfg'.sectionDDR == cfg.sectionDDR
    ensures var all := AdjacentOrder(cfg.sectionSV, cfg'.sectionDDR, cfg.sectionCPU);
            AllPresent(cfg'.dumpFileSections) && |cfg'.dumpFileSections| == |all|
            && forall i :: 0 <= i < |all| ==>
                 Present(cfg'.dumpFileSections)[i] == all[i].(offset := PackedOffset(all, cfg'.payloadOffset, i))
  {
    var count: u32 := (|cfg.sectionDDR| + |cfg.sectionSV| + |cfg.sectionCPU|) % U32_LIMIT;
    cfg' := cfg.(dumpFileHeader := cfg.dumpFileHeader.(sectionsCount := count),
                 payloadOffset := Add64(cfg.sectionTableOffset, PACKED_RAW_DUMP_SECTION_HEADER_SIZE * count));
    var sorted;
    hr, sorted := SortDdrSectionTable(cfg.sectionDDR, cfg.ddrOrder);
    cfg' := cfg'.(sectionDDR := sorted);
    var table;
    hr, table := CopyAdjacent(count, cfg.sectionSV, sorted, cfg.sectionCPU);
    assert Present(table) == AdjacentOrder(cfg.sectionSV, sorted, cfg.sectionCPU);
    table := PlaceTable(table, cfg'.payloadOffset);
    cfg' := cfg'.(dumpFileSections := table);
  }

  /** Reducing one addend modulo m does not change the sum modulo m. */
  lemma ModAddLeft(x: nat, y: nat, m: nat)
    requires m > 0
    ensures (x % m + y) % m == (x + y) % m
  {
    var q, r := x / m, x % m;
    var q2, r2 := (r + y) / m, (r + y) % m;
    assert x == m * q + r && r + y == m * q2 + r2;
    assert x + y == m * (q + q2) + r2 by {
      assert m * (q + q2) == m * q + m * q2;
    }
    ModUnique(x + y, m, q + q2, r2);
  }

  /** The ADJACENT table has the entries and the total size of the three lists when the DDR list is reordered. */
  lemma AdjacentTotal(sv: seq<SectionHeader>, sorted: seq<SectionHeader>, ddr: seq<SectionHeader>, cpu: seq<SectionHeader>)
    requires |sorted| == |ddr| && SumSizes(sorted) == SumSizes(ddr)
    ensures |sv + sorted + cpu| == |sv| + |ddr| + |cpu|
    ensures SumSizes(sv + sorted + cpu) == SumSizes(sv) + SumSizes(ddr) + SumSizes(cpu)
  {
    SumSizesAppend(sv + sorted, cpu);
    SumSizesAppend(sv, sorted);
  }

  /** Where the last entry of a packed table ends: its start plus the total size. */
  lemma PackedEnd(t: seq<SectionHeader>, start: u64)
    requires 0 < |t|
    ensures Add64(PackedOffset(t, start, |t| - 1), t[|t| - 1].size) == (start + SumSizes(t)) % U64_LIMIT
  {
    PackedOffsetStep(t, start, |t|);
    PackingEnds(t, start);
  }

  /** The DumpSize of the generated header, with the payload totals reduced as GetSectionSize returns them. */
  lemma HeaderDumpSize(cfg: Config, d: nat, c: nat, v: nat)
    ensures MakeHeader.GeneratedHeader(cfg, d % U64_LIMIT, c % U64_LIMIT, v % U64_LIMIT).dumpSize
              == (PACKED_RAW_DUMP_HEADER_SIZE + SectionTableSize(cfg.dumpFileHeader.sectionsCount) + d % U64_LIMIT + c % U64_LIMIT + v % U64_LIMIT) % U64_LIMIT
  {
  }

  /** The header's sum of reduced payload sizes against the table's reduced start plus the plain sum. */
  lemma ReducedPayloads(end: int, x: nat, y: nat, d: nat, c: nat, v: nat, total: nat)
    requires x == y && total == v + d + c && end == (x % U64_LIMIT + total) % U64_LIMIT
    ensures end == (y + d % U64_LIMIT + c % U64_LIMIT + v % U64_LIMIT) % U64_LIMIT
  {
    var dr, cr, vr := d % U64_LIMIT, c % U64_LIMIT, v % U64_LIMIT;
    calc {
      (x + dr + cr + vr) % U64_LIMIT;
      { ModAddLeft(d, x + cr + vr, U64_LIMIT); }
      (x + d + cr + vr) % U64_LIMIT;
      { ModAddLeft(c, x + d + vr, U64_LIMIT); }
      (x + d + c + vr) % U64_LIMIT;
      { ModAddLeft(v, x + d + c, U64_LIMIT); }
      (x + d + c + v) % U64_LIMIT;
      { ModAddLeft(x, v + d + c, U64_LIMIT); }
      (x % U64_LIMIT + (v + d + c)) % U64_LIMIT;
    }
  }

  /** A table placed right after the file header and itself ends where the header's DumpSize sum says. */
  lemma TableEndsAtTotal(all: seq<SectionHeader>, y: nat, d: nat, c: nat, v: nat)
    requires 0 < |all| && SumSizes(all) == v + d + c && y == PACKED_RAW_DUMP_HEADER_SIZE + SectionTableSize(|all|)
    ensures Add64(PackedOffset(all, (PACKED_RAW_DUMP_HEADER_SIZE + SectionTableSize(|all|)) % U64_LIMIT, |all| - 1), all[|all| - 1].size)
              == (y + d % U64_LIMIT + c % U64_LIMIT + v % U64_LIMIT) % U64_LIMIT
  {
    PackedEnd(all, (PACKED_RAW_DUMP_HEADER_SIZE + SectionTableSize(|all|)) % U64_LIMIT);
    ReducedPayloads(Add64(PackedOffset(all, (PACKED_RAW_DUMP_HEADER_SIZE + SectionTableSize(|all|)) % U64_LIMIT, |all| - 1), all[|all| - 1].size),
                    PACKED_RAW_DUMP_HEADER_SIZE + SectionTableSize(|all|), y, d, c, v, SumSizes(all));
  }

  /** The end of the last entry of a packed table after the header, as the sum GeneratedHeader forms for DumpSize. */
  lemma AdjacentEnd(count: nat, all: seq<SectionHeader>, d: nat, c: nat, v: nat)
    requires 0 < |all| && count == |all| && SumSizes(all) == v + d + c
    ensures Add64(PackedOffset(all, (PACKED_RAW_DUMP_HEADER_SIZE + SectionTableSize(|all|)) % U64_LIMIT, |all| - 1), all[|all| - 1].size)
              == (PACKED_RAW_DUMP_HEADER_SIZE + SectionTableSize(count) + d % U64_LIMIT + c % U64_LIMIT + v % U64_LIMIT) % U64_LIMIT
  {
    TableEndsAtTotal(all, PACKED_RAW_DUMP_HEADER_SIZE + SectionTableSize(count), d, c, v);
  }

  /** LastSectionEndsAtDumpSize once the count and the total of the ADJACENT table are known. */
  lemma TableEndAtDumpSize(cfg: Config, sv: seq<SectionHeader>, ddr: seq<SectionHeader>,
                           sorted: seq<SectionHeader>, cpu: seq<SectionHeader>)
    requires 0 < |ddr| && cfg.dumpFileHeader.sectionsCount == |sv| + |ddr| + |cpu|
    requires |sv + sorted + cpu| == |sv| + |ddr| + |cpu|
    requires SumSizes(sv + sorted + cpu) == SumSizes(sv) + SumSizes(ddr) + SumSizes(cpu)
    ensures var all := sv + sorted + cpu;
            var payloadOffset := (PACKED_RAW_DUMP_HEADER_SIZE + SectionTableSize(|all|)) % U64_LIMIT;
            Add64(PackedOffset(all, payloadOffset, |all| - 1), all[|all| - 1].size)
              == MakeHeader.GeneratedHeader(cfg, SumSizes(ddr) % U64_LIMIT, SumSizes(cpu) % U64_LIMIT, SumSizes(sv) % U64_LIMIT).dumpSize
  {
    AdjacentEnd(cfg.dumpFileHeader.sectionsCount as nat, sv + sorted + cpu, SumSizes(ddr), SumSizes(cpu), SumSizes(sv));
    HeaderDumpSize(cfg, SumSizes(ddr), SumSizes(cpu), SumSizes(sv));
  }

  /**
   * The last entry of the ADJACENT table ends exactly at the DumpSize the
   * header records: the file header, the table and the three payloads,
   * whatever order the DDR sort left its entries in (any reordering keeps
   * the count and, by SumSizesPermutation, the total size), modulo 2^64 as
   * both are computed in UINT64.
   */
  lemma LastSectionEndsAtDumpSize(cfg: Config, sv: seq<SectionHeader>, ddr: seq<SectionHeader>,
                                  sorted: seq<SectionHeader>, cpu: seq<SectionHeader>)
    requires multiset(sorted) == multiset(ddr) && 0 < |ddr|
    requires cfg.dumpFileHeader.sectionsCount == |sv| + |ddr| + |cpu|
    ensures var all := sv + sorted + cpu;
            var payloadOffset := (PACKED_RAW_DUMP_HEADER_SIZE + SectionTableSize(|all|)) % U64_LIMIT;
            Add64(PackedOffset(all, payloadOffset, |all| - 1), all[|all| - 1].size)
              == MakeHeader.GeneratedHeader(cfg, SumSizes(ddr) % U64_LIMIT, SumSizes(cpu) % U64_LIMIT, SumSizes(sv) % U64_LIMIT).dumpSize
  {
    assert |sorted| == |multiset(sorted)| == |multiset(ddr)| == |ddr|;
    SumSizesPermutation(sorted, ddr);
    AdjacentTotal(sv, sorted, ddr, cpu);
    TableEndAtDumpSize(cfg, sv, ddr, sorted, cpu);
  }
}
