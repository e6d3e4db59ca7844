/**
 Paging on an id that is not unique. The shipped tables have a key of two columns, and the backfill
 pages on one of them: this module says exactly which rows it never loads then.
 */
module Paging {
  import opened Backfill

  /** Where the page above a checkpoint ends. */
  function PageEnd(src: seq<SourceRow>, last: int, size: nat): (e: nat)
    requires Sorted(src) && size >= 1
    ensures Covered(src, last) <= e <= |src|
    ensures Page(src, last, size) == src[Covered(src, last)..e]
    ensures e == Covered(src, last) <==> e == |src| && Page(src, last, size) == []
    ensures e > Covered(src, last) ==> Covered(src, src[e - 1].id) >= e
  {
    AboveIsTail(src, last);
    TakeTail(src, Covered(src, last), size);
    var e := Covered(src, last) + |Page(src, last, size)|;
    assert e > Covered(src, last) ==> Covered(src, src[e - 1].id) >= e by {
      if e > Covered(src, last) {
        CoveredSplits(src, src[e - 1].id);
      }
    }
    e
  }

  /** The loop loads row `i`, page after page from a checkpoint on. */
  predicate Loads(src: seq<SourceRow>, last: int, size: nat, i: nat)
    requires Sorted(src) && size >= 1
    decreases |src| - Covered(src, last)
  {
    var p, e := Covered(src, last), PageEnd(src, last, size);
    e > p && (p <= i < e || Loads(src, src[e - 1].id, size, i))
  }

  /** One of those pages ends before row `e`. */
  predicate EndsPage(src: seq<SourceRow>, last: int, size: nat, e: nat)
    requires Sorted(src) && size >= 1
    decreases |src| - Covered(src, last)
  {
    var p, end := Covered(src, last), PageEnd(src, last, size);
    end > p && (e == end || EndsPage(src, src[end - 1].id, size, e))
  }

  lemma {:induction false} EndsAreBeyond(src: seq<SourceRow>, last: int, size: nat, e: nat)
    requires Sorted(src) && size >= 1 && EndsPage(src, last, size, e)
    ensures Covered(src, last) < e <= |src|
    decreases |src| - Covered(src, last)
  {
    hide Sorted, Covered, Page;
    var end := PageEnd(src, last, size);
    if e == end {
    } else {
      EndsAreBeyond(src, src[end - 1].id, size, e);
    }
  }

  /** Some page ends before row `i`, on a row with the id of row `i`. */
  ghost predicate CutOff(src: seq<SourceRow>, last: int, size: nat, i: nat)
    requires Sorted(src) && size >= 1 && i < |src|
  {
    exists e: nat :: 0 < e <= i && EndsPage(src, last, size, e) && src[e - 1].id == src[i].id
  }

  lemma IdsAround(src: seq<SourceRow>, last: int, i: nat)
    requires Sorted(src) && i < |src|
    ensures src[i].id <= last <==> i < Covered(src, last)
  {
    CoveredSplits(src, last);
  }

  lemma SortedAt(src: seq<SourceRow>, i: nat, j: nat)
    requires Sorted(src) && i <= j < |src|
    ensures src[i].id <= src[j].id
  {
  }

  /** A row of the page above the checkpoint is cut off by no page. */
  lemma InPageNotCutOff(src: seq<SourceRow>, last: int, size: nat, i: nat)
    requires Sorted(src) && size >= 1 && Covered(src, last) <= i < PageEnd(src, last, size)
    ensures !CutOff(src, last, size, i)
  {
    hide Sorted, Covered, Page;
    var end := PageEnd(src, last, size);
    forall e: nat | 0 < e <= i ensures !EndsPage(src, last, size, e) {
      if EndsPage(src, last, size, e) {
        EndsAreBeyond(src, src[end - 1].id, size, e);
      }
    }
  }

  /** A row behind that page is cut off by it, or by a later one. */
  lemma BehindPageCutOff(src: seq<SourceRow>, last: int, size: nat, i: nat)
    requires Sorted(src) && size >= 1 && Covered(src, last) < PageEnd(src, last, size) <= i < |src|
    ensures var end := PageEnd(src, last, size);
            CutOff(src, last, size, i) <==> src[i].id <= src[end - 1].id || CutOff(src, src[end - 1].id, size, i)
  {
    var end := PageEnd(src, last, size);
    SortedAt(src, end - 1, i);
    hide Sorted, Covered, Page, EndsPage;
    EndsNext(src, last, size, end);
    if CutOff(src, last, size, i) {
      var e: nat :| 0 < e <= i && EndsPage(src, last, size, e) && src[e - 1].id == src[i].id;
      EndsNext(src, last, size, e);
    } else if CutOff(src, src[end - 1].id, size, i) {
      var e: nat :| 0 < e <= i && EndsPage(src, src[end - 1].id, size, e) && src[e - 1].id == src[i].id;
      EndsNext(src, last, size, e);
    }
  }

  lemma EndsNext(src: seq<SourceRow>, last: int, size: nat, e: nat)
    requires Sorted(src) && size >= 1 && Covered(src, last) < PageEnd(src, last, size)
    ensures var end := PageEnd(src, last, size);
            EndsPage(src, last, size, e) <==> e == end || EndsPage(src, src[end - 1].id, size, e)
  {
    hide Sorted, Covered, Page;
  }

  /**
   The rows that are never loaded: exactly those the checkpoint covers, and those that a page cuts
   off from an earlier row with the same id.
   */
  lemma {:induction false} MissedRows(src: seq<SourceRow>, last: int, size: nat, i: nat)
    requires Sorted(src) && size >= 1 && i < |src|
    ensures !Loads(src, last, size, i) <==> src[i].id <= last || CutOff(src, last, size, i)
    decreases |src| - Covered(src, last)
  {
    hide Sorted, Covered, Page, CutOff;
    var p, end := Covered(src, last), PageEnd(src, last, size);
    IdsAround(src, last, i);
    if end == p {
    } else if i < p {
      NotBehind(src, src[end - 1].id, size, i);
    } else if i < end {
      InPageNotCutOff(src, last, size, i);
    } else {
      MissedRows(src, src[end - 1].id, size, i);
      BehindPageCutOff(src, last, size, i);
    }
  }

  /** Later pages do not go back. */
  lemma {:induction false} NotBehind(src: seq<SourceRow>, last: int, size: nat, i: nat)
    requires Sorted(src) && size >= 1 && i < Covered(src, last)
    ensures !Loads(src, last, size, i)
    decreases |src| - Covered(src, last)
  {
    hide Sorted, Covered, Page;
    var end := PageEnd(src, last, size);
    if end == Covered(src, last) {
    } else {
      NotBehind(src, src[end - 1].id, size, i);
    }
  }

  /** With positive ids that do not repeat no row is missed. */
  lemma UniqueIdsMissNone(src: seq<SourceRow>, size: nat, i: nat)
    requires Ascending(src) && size >= 1 && i < |src|
    ensures Sorted(src) && Loads(src, 0, size, i)
  {
    AscendingIsSorted(src);
    MissedRows(src, 0, size, i);
    hide Covered, Page, Loads, EndsPage;
  }

  /** Two tenants with one id, a row a page: the second one is never loaded. */
  lemma RepeatedIdIsMissed(a: SourceRow, b: SourceRow)
    requires 0 < a.id == b.id
    ensures Sorted([a, b]) && Loads([a, b], 0, 1, 0) && !Loads([a, b], 0, 1, 1)
  {
    var src := [a, b];
    CoveredSplits(src, 0);
    assert Covered(src, 0) == 0;
    assert PageEnd(src, 0, 1) == 1 by { AboveIsTail(src, 0); }
    MissedRows(src, 0, 1, 1);
    assert EndsPage(src, 0, 1, 1);
  }
}
