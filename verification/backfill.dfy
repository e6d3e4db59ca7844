/**
 The one-time backfill: keyset pages, several INSERTs a page, a checkpoint after each page, and
 a script that may stop anywhere and be started again. The source is static, sorted by a
 positive unique id, and its rows share their columns.
 */
module Backfill {
  import opened Values
  import opened Tables
  import opened Columns

  datatype SourceRow = SourceRow(id: int, data: Dict)

  // ---- The source and its pages --------------------------------------------------------------

  predicate Ascending(src: seq<SourceRow>) {
    && (forall i :: 0 <= i < |src| ==> src[i].id > 0)
    && (forall i, j :: 0 <= i < j < |src| ==> src[i].id < src[j].id)
  }

  /** In id order, whether or not ids repeat. */
  predicate Sorted(src: seq<SourceRow>) {
    forall i, j :: 0 <= i < j < |src| ==> src[i].id <= src[j].id
  }

  lemma AscendingIsSorted(src: seq<SourceRow>)
    requires Ascending(src)
    ensures Sorted(src)
  {
  }

  predicate SameKeys(src: seq<SourceRow>, cols: seq<string>) {
    forall i :: 0 <= i < |src| ==> RowToLoad(src[i].data).keys == cols
  }

  /** `WHERE id > last` */
  function Above(src: seq<SourceRow>, last: int): seq<SourceRow> {
    if src == [] then []
    else Above(src[..|src| - 1], last) + (if src[|src| - 1].id > last then [src[|src| - 1]] else [])
  }

  function Limit(rows: seq<SourceRow>, size: nat): seq<SourceRow> {
    if |rows| <= size then rows else rows[..size]
  }

  /** `... ORDER BY id LIMIT size`, over a source in id order. */
  function Page(src: seq<SourceRow>, last: int, size: nat): seq<SourceRow> {
    Limit(Above(src, last), size)
  }

  /** How many rows a checkpoint covers. */
  function Covered(src: seq<SourceRow>, last: int): (p: nat)
    ensures p <= |src|
  {
    if src == [] then 0
    else if src[|src| - 1].id <= last then |src|
    else Covered(src[..|src| - 1], last)
  }

  lemma {:induction false} CoveredSplits(src: seq<SourceRow>, last: int)
    requires Sorted(src)
    ensures forall i :: 0 <= i < |src| ==> (src[i].id <= last <==> i < Covered(src, last))
  {
    if src == [] || src[|src| - 1].id <= last {
    } else {
      CoveredSplits(src[..|src| - 1], last);
    }
  }

  /** In id order the rows above a checkpoint are those after the rows it covers. */
  lemma {:induction false} AboveIsTail(src: seq<SourceRow>, last: int)
    requires Sorted(src)
    ensures Above(src, last) == src[Covered(src, last)..]
  {
    if src == [] {
    } else {
      var init, end := src[..|src| - 1], src[|src| - 1];
      SortedInit(src);
      AboveIsTail(init, last);
      hide Sorted, Above, Covered;
      CoveredStep(src, last);
      if end.id <= last {
        assert Covered(init, last) == |init|;
        assert init[|init|..] + [] == src[|src|..];
      } else {
        var c := Covered(init, last);
        assert src[c..] == init[c..] + [end];
      }
    }
  }

  lemma CoveredStep(src: seq<SourceRow>, last: int)
    requires Sorted(src) && src != []
    ensures var init, end := src[..|src| - 1], src[|src| - 1];
            && Above(src, last) == Above(init, last) + (if end.id > last then [end] else [])
            && (end.id <= last ==> Covered(src, last) == |src| && Covered(init, last) == |init|)
            && (end.id > last ==> Covered(src, last) == Covered(init, last))
  {
    SortedInit(src);
  }

  lemma SortedInit(src: seq<SourceRow>)
    requires Sorted(src) && src != []
    ensures Sorted(src[..|src| - 1])
    ensures |src| > 1 ==> src[|src| - 2].id <= src[|src| - 1].id
  {
  }

  /** The checkpoint after the first `n` rows covers exactly those. */
  lemma CoveredAt(src: seq<SourceRow>, n: nat)
    requires Ascending(src) && 0 < n <= |src|
    ensures Covered(src, src[n - 1].id) == n
  {
    AscendingIsSorted(src);
    CoveredSplits(src, src[n - 1].id);
  }

  lemma CoveredNone(src: seq<SourceRow>)
    requires Ascending(src)
    ensures Covered(src, 0) == 0
  {
    AscendingIsSorted(src);
    CoveredSplits(src, 0);
  }

  lemma TakeTail(rows: seq<SourceRow>, p: nat, size: nat)
    requires p <= |rows| && size >= 1
    ensures var page := Limit(rows[p..], size);
            && p + |page| <= |rows| && page == rows[p..p + |page|] && (page == [] <==> p == |rows|)
            && |page| <= size && (p + |page| == |rows| || |page| == size)
  {
  }

  /** What inserting source rows adds to the target. */
  function Loaded(rows: seq<SourceRow>, cols: seq<string>): Table {
    seq(|rows|, i requires 0 <= i < |rows| => Project(RowToLoad(rows[i].data).at, cols))
  }

  // ---- Runs that stop ---------------------------------------------------------------------------

  /**
   Where a run stopped: its checkpoint covered `at` rows, and of the page then in flight the
   first `extra` rows were already in the target.
   */
  datatype Stop = Stop(at: nat, extra: nat)

  /** A target table and its persisted checkpoint. */
  datatype Load = Load(target: Table, last: int)

  /**
   A run of the loader that got to work: it emptied the target if it started from nothing, then
   appended rows from its checkpoint on.
   */
  predicate Appends(src: seq<SourceRow>, cols: seq<string>, s: Load, s': Load, stop: Stop) {
    var p := Covered(src, s.last);
    && p <= stop.at && stop.at + stop.extra <= |src|
    && s'.last == (if stop.at == p then s.last else src[stop.at - 1].id)
    && s'.target == (if s.last == 0 then [] else s.target) + Loaded(src[p..stop.at + stop.extra], cols)
  }

  /** A run may also stop before it touches anything. */
  predicate RunsTo(src: seq<SourceRow>, cols: seq<string>, s: Load, s': Load, stop: Stop) {
    Appends(src, cols, s, s', stop) || (s' == s && stop == Stop(Covered(src, s.last), 0))
  }

  /** The rows that runs stopped with after a checkpoint will be inserted again. */
  function Extras(src: seq<SourceRow>, cols: seq<string>, stops: seq<Stop>): multiset<Row>
    requires forall i :: 0 <= i < |stops| ==> stops[i].at + stops[i].extra <= |src|
  {
    if stops == [] then multiset{}
    else
      var s := stops[|stops| - 1];
      Extras(src, cols, stops[..|stops| - 1])
      + (if s.at == 0 then multiset{} else multiset(Loaded(src[s.at..s.at + s.extra], cols)))
  }

  ghost predicate StopsOk(src: seq<SourceRow>, pageSize: nat, stops: seq<Stop>) {
    forall i :: 0 <= i < |stops| ==> stops[i].at + stops[i].extra <= |src| && stops[i].extra <= pageSize
  }

  /** The target holds the covered rows once each, plus the rows in flight at earlier stops. */
  ghost predicate Progress(src: seq<SourceRow>, cols: seq<string>, pageSize: nat, s: Load, stops: seq<Stop>) {
    && StopsOk(src, pageSize, stops)
    && s.last >= 0
    && (s.last > 0 ==>
          && Covered(src, s.last) > 0 && src[Covered(src, s.last) - 1].id == s.last
          && multiset(s.target) == multiset(Loaded(src[..Covered(src, s.last)], cols)) + Extras(src, cols, stops))
    && (s.last == 0 ==> Extras(src, cols, stops) == multiset{})
  }

  lemma LoadedConcat(a: seq<SourceRow>, b: seq<SourceRow>, cols: seq<string>)
    ensures Loaded(a + b, cols) == Loaded(a, cols) + Loaded(b, cols)
  {
  }

  lemma LoadedCut(src: seq<SourceRow>, cols: seq<string>, a: nat, b: nat, c: nat)
    requires a <= b <= c <= |src|
    ensures Loaded(src[a..c], cols) == Loaded(src[a..b], cols) + Loaded(src[b..c], cols)
  {
    assert src[a..c] == src[a..b] + src[b..c];
    LoadedConcat(src[a..b], src[b..c], cols);
  }

  lemma ExtrasSnoc(src: seq<SourceRow>, cols: seq<string>, stops: seq<Stop>, s: Stop)
    requires forall i :: 0 <= i < |stops| ==> stops[i].at + stops[i].extra <= |src|
    requires s.at + s.extra <= |src|
    ensures Extras(src, cols, stops + [s])
         == Extras(src, cols, stops)
            + (if s.at == 0 then multiset{} else multiset(Loaded(src[s.at..s.at + s.extra], cols)))
  {
    hide Loaded;
    assert (stops + [s])[..|stops|] == stops;
  }

  /** The target right after a run, as a bag: all rows up to the stop, and the earlier extras. */
  lemma {:induction false} TargetAfterRun(src: seq<SourceRow>, cols: seq<string>, pageSize: nat, s: Load, s': Load,
                                          stops: seq<Stop>, stop: Stop)
    requires Ascending(src) && Progress(src, cols, pageSize, s, stops) && RunsTo(src, cols, s, s', stop)
    requires stop.at > 0
    ensures multiset(s'.target)
         == multiset(Loaded(src[..stop.at], cols)) + multiset(Loaded(src[stop.at..stop.at + stop.extra], cols))
            + Extras(src, cols, stops)
  {
    hide Loaded, Extras, Ascending, StopsOk;
    var p, end := Covered(src, s.last), stop.at + stop.extra;
    CoveredNone(src);
    LoadedCut(src, cols, 0, p, stop.at);
    LoadedCut(src, cols, p, stop.at, end);
    NothingLoaded(src, cols, p);
    NothingLoaded(src, cols, stop.at);
    assert src[0..p] == src[..p] && src[0..stop.at] == src[..stop.at];
  }

  lemma NothingLoaded(src: seq<SourceRow>, cols: seq<string>, p: nat)
    requires p <= |src|
    ensures Loaded(src[p..p], cols) == [] && Loaded(src[0..0], cols) == []
  {
  }

  /** A stopped run leaves the same kind of state, with its page in flight as one more extra. */
  lemma {:induction false} StopKeepsProgress(src: seq<SourceRow>, cols: seq<string>, pageSize: nat, s: Load, s': Load,
                                             stops: seq<Stop>, stop: Stop)
    requires Ascending(src) && Progress(src, cols, pageSize, s, stops)
    requires RunsTo(src, cols, s, s', stop) && stop.extra <= pageSize
    ensures Progress(src, cols, pageSize, s', stops + [stop])
  {
    hide Loaded, Extras, Ascending, RunsTo;
    StopInRange(src, cols, s, s', stop);
    ExtrasSnoc(src, cols, stops, stop);
    if stop.at > 0 {
      TargetAfterRun(src, cols, pageSize, s, s', stops, stop);
      CoveredAfter(src, s.last, stop.at);
    }
  }

  lemma StopInRange(src: seq<SourceRow>, cols: seq<string>, s: Load, s': Load, stop: Stop)
    requires Ascending(src) && RunsTo(src, cols, s, s', stop)
    ensures Covered(src, s.last) <= stop.at && stop.at + stop.extra <= |src|
    ensures s'.last == (if stop.at == Covered(src, s.last) then s.last else src[stop.at - 1].id)
  {
    hide Loaded, Ascending;
  }

  lemma CoveredAfter(src: seq<SourceRow>, last: int, at: nat)
    requires Ascending(src) && Covered(src, last) <= at <= |src| && at > 0
    requires last >= 0 && (last > 0 ==> Covered(src, last) > 0 && src[Covered(src, last) - 1].id == last)
    ensures var last' := if at == Covered(src, last) then last else src[at - 1].id;
            last' > 0 && Covered(src, last') == at && src[at - 1].id == last'
  {
    CoveredNone(src);
    CoveredAt(src, at);
  }

  /**
   A run that reaches the end: whatever stops came before, every source row is in the target
   once, plus exactly the rows that were in flight at those stops.
   */
  lemma {:induction false} CompletedLoad(src: seq<SourceRow>, cols: seq<string>, pageSize: nat, s: Load, s': Load,
                                         stops: seq<Stop>)
    requires Ascending(src) && Progress(src, cols, pageSize, s, stops)
    requires Appends(src, cols, s, s', Stop(|src|, 0))
    ensures multiset(s'.target) == multiset(Loaded(src, cols)) + Extras(src, cols, stops)
  {
    hide Loaded, Extras, Ascending, StopsOk;
    NothingLoaded(src, cols, |src|);
    assert src[..|src|] == src;
    if |src| > 0 {
      TargetAfterRun(src, cols, pageSize, s, s', stops, Stop(|src|, 0));
    }
  }

  /** Stopping at checkpoints, or before the first one, leaves no trace. */
  predicate CleanStops(stops: seq<Stop>) {
    forall i :: 0 <= i < |stops| ==> stops[i].at == 0 || stops[i].extra == 0
  }

  lemma {:induction false} CleanStopsIffNoExtras(src: seq<SourceRow>, cols: seq<string>, stops: seq<Stop>)
    requires forall i :: 0 <= i < |stops| ==> stops[i].at + stops[i].extra <= |src|
    ensures CleanStops(stops) <==> Extras(src, cols, stops) == multiset{}
  {
    hide Loaded, CleanStops;
    if stops == [] {
      CleanSnoc([]);
    } else {
      CleanStopsIffNoExtras(src, cols, stops[..|stops| - 1]);
      CleanSnoc(stops);
      var s := stops[|stops| - 1];
      LoadedSize(src[s.at..s.at + s.extra], cols);
    }
  }

  lemma CleanSnoc(stops: seq<Stop>)
    ensures CleanStops(stops) <==>
              stops == [] || (CleanStops(stops[..|stops| - 1])
                              && (stops[|stops| - 1].at == 0 || stops[|stops| - 1].extra == 0))
  {
    if stops != [] {
      assert stops == stops[..|stops| - 1] + [stops[|stops| - 1]];
    }
  }

  lemma LoadedSize(rows: seq<SourceRow>, cols: seq<string>)
    ensures |multiset(Loaded(rows, cols))| == |rows|
  {
  }

  /** A run that stops after the first INSERT of its second page makes the next run repeat that row. */
  lemma ResumeCanDuplicate(cols: seq<string>, a: SourceRow, b: SourceRow)
    requires 0 < a.id < b.id
    ensures var src, stop := [a, b], Stop(1, 1);
            && Ascending(src) && RunsTo(src, cols, Load([], 0), Load(Loaded(src, cols), a.id), stop)
            && Appends(src, cols, Load(Loaded(src, cols), a.id), Load(Loaded(src, cols) + Loaded([b], cols), b.id),
                       Stop(2, 0))
  {
    var src := [a, b];
    hide Loaded;
    CoveredNone(src);
    CoveredAt(src, 1);
    assert src[0..2] == src && src[1..2] == [b];
    assert [] + Loaded(src, cols) == Loaded(src, cols);
  }
}
