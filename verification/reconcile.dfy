/** The reconcile script: the selected rows merged in chunks of any size. */
module Reconcile {
  import opened Values
  import opened Tables
  import opened Statements
  import opened Columns
  import opened Batches
  import opened Replay
  import opened Warehousing

  // ---- Chunks --------------------------------------------------------------------------------

  /** `fetchmany(size)` until nothing is left: the MERGE of each chunk. */
  function ChunkCalls(conf: TableConf, dicts: seq<Dict>, size: nat): seq<Call>
    requires size >= 1
  {
    if dicts == [] then []
    else if |dicts| <= size then [MergeCall(conf, dicts)]
    else [MergeCall(conf, dicts[..size])] + ChunkCalls(conf, dicts[size..], size)
  }

  /** The selected rows: one set of columns, complete keys, each key once. */
  ghost predicate Selected(conf: TableConf, cols: set<string>, dicts: seq<Dict>) {
    && (forall i :: 0 <= i < |dicts| ==> TidyRow(conf.pk, cols, dicts[i].at))
    && UniqueKeys(conf.pk, Rows(dicts))
  }

  lemma SelectedPart(conf: TableConf, cols: set<string>, dicts: seq<Dict>, a: nat, b: nat)
    requires Selected(conf, cols, dicts) && a <= b <= |dicts|
    ensures Selected(conf, cols, dicts[a..b])
  {
    hide TidyRow, KeyOf;
    var part := dicts[a..b];
    assert forall i :: 0 <= i < |part| ==> part[i] == dicts[a + i];
    forall i, j | 0 <= i < j < |part| ensures KeyOf(conf.pk, Rows(part)[i]) != KeyOf(conf.pk, Rows(part)[j]) {
      assert Rows(part)[i] == Rows(dicts)[a + i] && Rows(part)[j] == Rows(dicts)[a + j];
    }
  }

  lemma SelectedColumns(conf: TableConf, cols: set<string>, dicts: seq<Dict>)
    requires Selected(conf, cols, dicts)
    ensures AsFirst(dicts) == Rows(dicts)
  {
    hide UniqueKeys, KeyOf, AsFirst, Rows;
    AsFirstSameColumns(cols, dicts);
  }

  function Joined(parts: seq<seq<Dict>>): seq<Dict> {
    if parts == [] then [] else parts[0] + Joined(parts[1..])
  }

  /** The chunks are the rows in order, and every chunk but the last is full. */
  lemma {:induction false} ChunkSizes(conf: TableConf, dicts: seq<Dict>, size: nat) returns (parts: seq<seq<Dict>>)
    requires size >= 1
    ensures Joined(parts) == dicts && |ChunkCalls(conf, dicts, size)| == |parts|
    ensures forall i :: 0 <= i < |parts| ==>
              && 0 < |parts[i]| <= size && (i < |parts| - 1 ==> |parts[i]| == size)
              && ChunkCalls(conf, dicts, size)[i] == MergeCall(conf, parts[i])
    decreases |dicts|
  {
    hide MergeCall;
    if dicts == [] {
      parts := [];
    } else if |dicts| <= size {
      parts := [dicts];
      assert parts[1..] == [];
    } else {
      var rest := ChunkSizes(conf, dicts[size..], size);
      parts := [dicts[..size]] + rest;
      assert parts[1..] == rest && dicts[..size] + dicts[size..] == dicts;
      assert rest != [];
      forall i | 0 <= i < |parts|
        ensures 0 < |parts[i]| <= size && (i < |parts| - 1 ==> |parts[i]| == size)
        ensures ChunkCalls(conf, dicts, size)[i] == MergeCall(conf, parts[i])
      {
        if i > 0 {
          assert parts[i] == rest[i - 1];
        }
      }
    }
  }

  /** What merging some selected rows leaves under each key. */
  function ReconciledAt(pk: seq<string>, rows: Table, src: Table, k: Key): Table {
    MergeAt(pk, rows, Slice(pk, src, k))
  }

  /** One chunk, whatever its dedup returns. */
  lemma ChunkAt(conf: TableConf, cols: set<string>, dicts: seq<Dict>, op: Done, t: Table, k: Key)
    requires dicts != [] && Selected(conf, cols, dicts) && op.call == MergeCall(conf, dicts) && CanTake(op)
    ensures Slice(conf.pk, Effect(t, op), k) == ReconciledAt(conf.pk, Slice(conf.pk, t, k), Rows(dicts), k)
  {
    BindExact(Rows(dicts), dicts[0].keys);
    SelectedColumns(conf, cols, dicts);
    assert BoundRows(op.call) == Rows(dicts) && IsPick(conf.pk, Rows(dicts), op.picked);
    ChunkMerge(conf, cols, dicts, op.picked, t, k);
  }

  lemma ChunkMerge(conf: TableConf, cols: set<string>, dicts: seq<Dict>, picked: Table, t: Table, k: Key)
    requires Selected(conf, cols, dicts) && IsPick(conf.pk, Rows(dicts), picked)
    ensures Slice(conf.pk, Merge(conf.pk, t, picked), k) == ReconciledAt(conf.pk, Slice(conf.pk, t, k), Rows(dicts), k)
  {
    hide Merge, Rows, Slice, TidyRow;
    PickOfCopiesAt(conf.pk, Rows(dicts), Rows(dicts), picked, k);
    SliceMerge(conf.pk, t, picked, k);
    if !Complete(k) {
      SelectedComplete(conf, cols, dicts, k);
      assert Slice(conf.pk, t, k) + [] == Slice(conf.pk, t, k);
    }
  }

  lemma SelectedComplete(conf: TableConf, cols: set<string>, dicts: seq<Dict>, k: Key)
    requires Selected(conf, cols, dicts) && !Complete(k)
    ensures Slice(conf.pk, Rows(dicts), k) == []
  {
    var s := Slice(conf.pk, Rows(dicts), k);
    if s != [] {
      SliceMember(conf.pk, Rows(dicts), k, s[0]);
    }
  }

  lemma RowsConcat(a: seq<Dict>, b: seq<Dict>)
    ensures Rows(a + b) == Rows(a) + Rows(b)
  {
  }

  /** Merging the first rows and then the rest is merging all of them. */
  lemma SplitAt(conf: TableConf, dicts: seq<Dict>, n: nat, rows: Table, k: Key)
    requires n <= |dicts| && UniqueKeys(conf.pk, Rows(dicts))
    ensures ReconciledAt(conf.pk, ReconciledAt(conf.pk, rows, Rows(dicts[..n]), k), Rows(dicts[n..]), k)
         == ReconciledAt(conf.pk, rows, Rows(dicts), k)
  {
    hide UniqueKeys, Slice, Rows;
    assert dicts == dicts[..n] + dicts[n..];
    RowsConcat(dicts[..n], dicts[n..]);
    SliceConcat(conf.pk, Rows(dicts[..n]), Rows(dicts[n..]), k);
    SliceUnique(conf.pk, Rows(dicts), k);
    var a, b := Slice(conf.pk, Rows(dicts[..n]), k), Slice(conf.pk, Rows(dicts[n..]), k);
    assert |a + b| <= 1;
    assert a == [] ==> a + b == b;
    assert b == [] ==> a + b == a;
  }

  /**
   A finished reconcile, one key at a time: in chunks of any size it merges each selected row
   once and leaves every other key alone.
   */
  lemma {:induction false} ChunksAt(conf: TableConf, cols: set<string>, dicts: seq<Dict>, size: nat, ops: seq<Done>,
                                    t: Table, k: Key)
    requires size >= 1 && Selected(conf, cols, dicts) && Resolves(ops, ChunkCalls(conf, dicts, size))
    ensures AllLegal(ops)
    ensures Slice(conf.pk, RunTable(t, ops), k) == ReconciledAt(conf.pk, Slice(conf.pk, t, k), Rows(dicts), k)
    decreases |dicts|
  {
    ResolvedLegal(ops, ChunkCalls(conf, dicts, size));
    hide CanTake, Selected, Slice, Rows, Effect, MergeCall, ReconciledAt, Legal;
    if dicts == [] {
      NoRows(conf.pk, Slice(conf.pk, t, k), k);
    } else {
      var n := if |dicts| <= size then |dicts| else size;
      var head, tail := dicts[..n], dicts[n..];
      SelectedPart(conf, cols, dicts, 0, n);
      SelectedPart(conf, cols, dicts, n, |dicts|);
      assert dicts[0..n] == head && dicts[n..|dicts|] == tail;
      ChunkSplit(conf, dicts, size, n, ops);
      ChunkAt(conf, cols, head, ops[0], t, k);
      ChunksAt(conf, cols, tail, size, ops[1..], Effect(t, ops[0]), k);
      RunHead(t, ops);
      SelectedUnique(conf, cols, dicts);
      SplitAt(conf, dicts, n, Slice(conf.pk, t, k), k);
    }
  }

  lemma SelectedUnique(conf: TableConf, cols: set<string>, dicts: seq<Dict>)
    requires Selected(conf, cols, dicts)
    ensures UniqueKeys(conf.pk, Rows(dicts))
  {
  }

  lemma NoRows(pk: seq<string>, rows: Table, k: Key)
    ensures ReconciledAt(pk, rows, Rows([]), k) == rows
  {
  }

  lemma ChunkSplit(conf: TableConf, dicts: seq<Dict>, size: nat, n: nat, ops: seq<Done>)
    requires size >= 1 && dicts != [] && n == (if |dicts| <= size then |dicts| else size)
    requires Resolves(ops, ChunkCalls(conf, dicts, size))
    ensures ops != [] && ops[0].call == MergeCall(conf, dicts[..n]) && CanTake(ops[0])
    ensures Resolves(ops[1..], ChunkCalls(conf, dicts[n..], size))
  {
    hide CanTake, MergeCall;
    if n == |dicts| {
      assert dicts[..n] == dicts && dicts[n..] == [];
    }
    assert ops[0].call == ChunkCalls(conf, dicts, size)[0];
    forall i | 0 <= i < |ops| - 1
      ensures ops[1..][i].call == ChunkCalls(conf, dicts, size)[1..][i] && CanTake(ops[1..][i])
    {
      assert ops[i + 1].call == ChunkCalls(conf, dicts, size)[i + 1];
    }
  }

  lemma RunHead(t: Table, ops: seq<Done>)
    requires AllLegal(ops) && ops != []
    ensures Legal(ops[0].call) && AllLegal(ops[1..]) && RunTable(t, ops) == RunTable(Effect(t, ops[0]), ops[1..])
  {
    hide Effect, Legal;
    assert ops == [ops[0]] + ops[1..];
    RunTableConcat(t, [ops[0]], ops[1..]);
    assert [ops[0]][..0] == [];
  }

  /** Chunk size does not matter: the table is that of one MERGE of all selected rows. */
  lemma {:induction false} ChunksAreOneMerge(conf: TableConf, cols: set<string>, dicts: seq<Dict>, size: nat,
                                             ops: seq<Done>, t: Table)
    requires size >= 1 && Selected(conf, cols, dicts) && Resolves(ops, ChunkCalls(conf, dicts, size))
    ensures AllLegal(ops)
    ensures Alike(conf.pk, RunTable(t, ops), Merge(conf.pk, t, Rows(dicts)))
    ensures SameRows(RunTable(t, ops), Merge(conf.pk, t, Rows(dicts)))
  {
    ResolvedLegal(ops, ChunkCalls(conf, dicts, size));
    hide Selected, Slice, Rows, Merge, RunTable, Resolves, ReconciledAt, AllLegal, ChunkCalls;
    WholeIsPick(conf, cols, dicts);
    forall k ensures Slice(conf.pk, RunTable(t, ops), k) == Slice(conf.pk, Merge(conf.pk, t, Rows(dicts)), k) {
      ChunksAt(conf, cols, dicts, size, ops, t, k);
      ChunkMerge(conf, cols, dicts, Rows(dicts), t, k);
    }
    AlikeIsSameRows(conf.pk, RunTable(t, ops), Merge(conf.pk, t, Rows(dicts)));
  }

  lemma WholeIsPick(conf: TableConf, cols: set<string>, dicts: seq<Dict>)
    requires Selected(conf, cols, dicts)
    ensures IsPick(conf.pk, Rows(dicts), Rows(dicts))
  {
    forall r | r in Rows(dicts) ensures Slice(conf.pk, Rows(dicts), KeyOf(conf.pk, r)) != [] {
      SliceMember(conf.pk, Rows(dicts), KeyOf(conf.pk, r), r);
    }
  }

  /** Afterwards the target agrees with the source on every selected key and is unchanged on all others. */
  lemma {:induction false} TargetAgrees(conf: TableConf, cols: set<string>, dicts: seq<Dict>, size: nat,
                                        ops: seq<Done>, t: Table, k: Key)
    requires size >= 1 && Selected(conf, cols, dicts) && Resolves(ops, ChunkCalls(conf, dicts, size))
    ensures AllLegal(ops)
    ensures var src, now := Slice(conf.pk, Rows(dicts), k), Slice(conf.pk, RunTable(t, ops), k);
            && (src == [] ==> now == Slice(conf.pk, t, k))
            && (src != [] ==>
                  && |now| == (if Slice(conf.pk, t, k) == [] then 1 else |Slice(conf.pk, t, k)|)
                  && forall i :: 0 <= i < |now| ==> forall c :: c in cols ==> Get(now[i], c) == Get(src[0], c))
  {
    ResolvedLegal(ops, ChunkCalls(conf, dicts, size));
    hide Slice, Rows, RunTable, Resolves, Selected, AllLegal, ChunkCalls;
    ChunksAt(conf, cols, dicts, size, ops, t, k);
    var src, was, now := Slice(conf.pk, Rows(dicts), k), Slice(conf.pk, t, k), Slice(conf.pk, RunTable(t, ops), k);
    if src != [] {
      SelectedRow(conf, cols, dicts, k, src[0]);
      forall i, c | 0 <= i < |now| && c in cols ensures Get(now[i], c) == Get(src[0], c) {
        if was != [] {
          OldRow(conf.pk, t, k, was[i]);
          OverrideAgrees(conf.pk, cols, was[i], src[0], c);
        }
      }
    }
  }

  lemma SelectedRow(conf: TableConf, cols: set<string>, dicts: seq<Dict>, k: Key, r: Row)
    requires Selected(conf, cols, dicts) && r in Slice(conf.pk, Rows(dicts), k)
    ensures TidyRow(conf.pk, cols, r) && KeyOf(conf.pk, r) == k
  {
    SliceMember(conf.pk, Rows(dicts), k, r);
  }

  lemma OldRow(pk: seq<string>, t: Table, k: Key, r: Row)
    requires r in Slice(pk, t, k)
    ensures KeyOf(pk, r) == k
  {
    SliceMember(pk, t, k, r);
  }

  lemma OverrideAgrees(pk: seq<string>, cols: set<string>, dst: Row, src: Row, c: string)
    requires KeyOf(pk, dst) == KeyOf(pk, src) && src.Keys == cols && c in cols
    ensures Get(Override(pk, dst, src), c) == Get(src, c)
  {
    if c in pk {
      var i :| 0 <= i < |pk| && pk[i] == c;
      assert KeyOf(pk, dst)[i] == KeyOf(pk, src)[i];
    }
  }

  // ---- The script -----------------------------------------------------------------------------------

  function Converted(rows: seq<Dict>): seq<Dict> {
    seq(|rows|, i requires 0 <= i < |rows| => RowToSf(rows[i]))
  }

  method ConvertChunk(rows: seq<Dict>) returns (sfRows: seq<Dict>)
    ensures sfRows == Converted(rows)
  {
    hide RowToSf;
    sfRows := [];
    for i := 0 to |rows|
      invariant |sfRows| == i && forall j :: 0 <= j < i ==> sfRows[j] == RowToSf(rows[j])
    {
      var row := BuildSfRow(rows[i]);
      sfRows := sfRows + [row];
    }
  }

  lemma ChunkStep(conf: TableConf, rows: seq<Dict>, a: nat, b: nat, size: nat)
    requires size >= 1 && a < |rows| && b == (if a + size <= |rows| then a + size else |rows|)
    ensures Converted(rows[a..b]) != [] && Legal(MergeCall(conf, Converted(rows[a..b])))
    ensures ChunkCalls(conf, Converted(rows[a..]), size)
         == [MergeCall(conf, Converted(rows[a..b]))] + ChunkCalls(conf, Converted(rows[b..]), size)
  {
    hide MergeCall, RowToSf;
    var here, part := Converted(rows[a..]), Converted(rows[a..b]);
    if |here| <= size {
      assert part == here && Converted(rows[b..]) == [];
    } else {
      assert part == here[..size] && Converted(rows[b..]) == here[size..];
    }
    MergeLegal(conf, part);
  }

  lemma MergeLegal(conf: TableConf, dicts: seq<Dict>)
    requires dicts != []
    ensures Legal(MergeCall(conf, dicts))
  {
    BindExact(Rows(dicts), dicts[0].keys);
  }

  /** The MERGE of one fetched chunk. */
  method MergeChunk(warehouse: Warehouse, conf: TableConf, rows: seq<Dict>) returns (ok: bool, ghost took: seq<Done>)
    requires rows != []
    modifies warehouse
    ensures Part(took, [MergeCall(conf, Converted(rows))]) && Ran(old(warehouse.db), took, warehouse.db)
    ensures ok ==> |took| == 1
    ensures warehouse.failures == old(warehouse.failures) + if ok then 0 else 1
  {
    hide Part, Ran, Legal, Template, Flatten, RowToSf;
    var sfRows := ConvertChunk(rows);
    MergeLegal(conf, sfRows);
    var allCols := sfRows[0].keys;
    ok, took := warehouse.Execute(
      Call(MergeSql(conf.current, conf.pk, Template(allCols, |sfRows|)), Flatten(Rows(sfRows), allCols)));
  }

  /** Fetches chunks and merges each; false if a statement failed on the way. */
  method ReconcileTable(warehouse: Warehouse, conf: TableConf, rows: seq<Dict>, size: nat)
      returns (ok: bool, total: nat, ghost took: seq<Done>)
    requires size >= 1
    modifies warehouse
    ensures Part(took, ChunkCalls(conf, Converted(rows), size)) && Ran(old(warehouse.db), took, warehouse.db)
    ensures ok ==> |took| == |ChunkCalls(conf, Converted(rows), size)| && total == |rows|
    ensures warehouse.failures == old(warehouse.failures) + if ok then 0 else 1
  {
    hide Part, Ran, Converted, ChunkCalls, MergeCall;
    total, took := 0, [];
    ghost var calls, all := [], ChunkCalls(conf, Converted(rows), size);
    NothingTaken(warehouse.db);
    assert rows[0..] == rows;
    while total < |rows|
      invariant total <= |rows| && |took| == |calls| && Part(took, calls)
      invariant calls + ChunkCalls(conf, Converted(rows[total..]), size) == all
      invariant Ran(old(warehouse.db), took, warehouse.db) && warehouse.failures == old(warehouse.failures)
    {
      var end := if total + size <= |rows| then total + size else |rows|;
      ghost var mid, call, more: seq<Done> := warehouse.db, MergeCall(conf, ChunkOf(rows, total, end)), [];
      ok, more := MergeChunk(warehouse, conf, rows[total..end]);
      ChunkTaken(conf, rows, total, end, size, calls, all, old(warehouse.db), took, mid, more, warehouse.db);
      took, calls := took + more, calls + [call];
      if !ok {
        return;
      }
      total := end;
    }
    NoChunks(conf, rows, size);
    assert calls + [] == calls;
    ok := true;
  }

  function ChunkOf(rows: seq<Dict>, a: nat, b: nat): (chunk: seq<Dict>)
    requires a < b <= |rows|
    ensures chunk != []
  {
    Converted(rows[a..b])
  }

  /** One more chunk has been merged, or not quite. */
  lemma ChunkTaken(conf: TableConf, rows: seq<Dict>, a: nat, b: nat, size: nat, calls: seq<Call>, all: seq<Call>,
                   start: Db, took: seq<Done>, mid: Db, more: seq<Done>, end: Db)
    requires size >= 1 && a < |rows| && b == (if a + size <= |rows| then a + size else |rows|)
    requires calls + ChunkCalls(conf, Converted(rows[a..]), size) == all
    requires Part(took, calls) && |took| == |calls| && Part(more, [MergeCall(conf, ChunkOf(rows, a, b))])
    requires Ran(start, took, mid) && Ran(mid, more, end)
    ensures var next := calls + [MergeCall(conf, ChunkOf(rows, a, b))];
            && Part(took + more, next) && Part(took + more, all) && Ran(start, took + more, end)
            && next + ChunkCalls(conf, Converted(rows[b..]), size) == all
  {
    hide Part, Ran, Converted, ChunkCalls, MergeCall, Legal;
    var call, rest := MergeCall(conf, ChunkOf(rows, a, b)), ChunkCalls(conf, Converted(rows[b..]), size);
    ChunkStep(conf, rows, a, b, size);
    RunMore(start, took, calls, mid, more, [call], end);
    PartExtends(took + more, calls + [call], rest);
    assert (calls + [call]) + rest == calls + ([call] + rest);
  }

  lemma NothingTaken(db: Db)
    ensures Part([], []) && Ran(db, [], db)
  {
  }

  lemma NoChunks(conf: TableConf, rows: seq<Dict>, size: nat)
    requires size >= 1
    ensures ChunkCalls(conf, Converted(rows[|rows|..]), size) == []
  {
  }

  /** A script that stopped has merged the chunks of the first rows. */
  lemma {:induction false} StoppedAfterRows(conf: TableConf, dicts: seq<Dict>, size: nat,
                                            ops: seq<Done>) returns (n: nat)
    requires size >= 1 && Part(ops, ChunkCalls(conf, dicts, size))
    ensures n <= |dicts| && Resolves(ops, ChunkCalls(conf, dicts[..n], size))
    decreases |dicts|
  {
    hide CanTake, MergeCall;
    var calls := ChunkCalls(conf, dicts, size);
    if ops == [] {
      n := 0;
    } else if |dicts| <= size {
      n := |dicts|;
      assert dicts[..n] == dicts && calls[..1] == calls;
    } else {
      var rest := ChunkCalls(conf, dicts[size..], size);
      PartTail(ops, calls[0], rest);
      var m := StoppedAfterRows(conf, dicts[size..], size, ops[1..]);
      n := size + m;
      assert dicts[..n][..size] == dicts[..size] && dicts[..n][size..] == dicts[size..][..m];
      ChunkCallsPrefix(conf, dicts, size, m);
      ResolvesCons(ops, calls[0], ChunkCalls(conf, dicts[size..][..m], size));
    }
  }

  lemma PartTail(ops: seq<Done>, call: Call, rest: seq<Call>)
    requires ops != [] && Part(ops, [call] + rest)
    ensures ops[0].call == call && CanTake(ops[0]) && Part(ops[1..], rest)
  {
    hide CanTake;
    assert ops[0].call == ([call] + rest)[..|ops|][0];
    forall i | 0 <= i < |ops| - 1 ensures ops[1..][i].call == rest[..|ops| - 1][i] && CanTake(ops[1..][i]) {
      assert ops[i + 1].call == ([call] + rest)[..|ops|][i + 1];
    }
  }

  lemma ResolvesCons(ops: seq<Done>, call: Call, rest: seq<Call>)
    requires ops != [] && ops[0].call == call && CanTake(ops[0]) && Resolves(ops[1..], rest)
    ensures Resolves(ops, [call] + rest)
  {
    hide CanTake;
    forall i | 0 < i < |ops| ensures ops[i].call == ([call] + rest)[i] && CanTake(ops[i]) {
      assert ops[1..][i - 1] == ops[i];
    }
  }

  lemma ChunkCallsPrefix(conf: TableConf, dicts: seq<Dict>, size: nat, m: nat)
    requires size >= 1 && |dicts| > size && size + m <= |dicts|
    ensures ChunkCalls(conf, dicts[..size + m], size)
         == [MergeCall(conf, dicts[..size])] + ChunkCalls(conf, dicts[size..][..m], size)
  {
    hide MergeCall;
    var part := dicts[..size + m];
    assert part[..size] == dicts[..size] && part[size..] == dicts[size..][..m];
    if m == 0 {
      assert part == dicts[..size];
    }
  }

  /** Running the script again after it stopped anywhere gives what one clean run gives. */
  lemma {:induction false} RerunRepairs(conf: TableConf, cols: set<string>, dicts: seq<Dict>, size: nat,
                                        first: seq<Done>, ops: seq<Done>, t: Table)
    requires size >= 1 && Selected(conf, cols, dicts)
    requires Part(first, ChunkCalls(conf, dicts, size)) && Resolves(ops, ChunkCalls(conf, dicts, size))
    ensures AllLegal(first) && AllLegal(ops)
    ensures Alike(conf.pk, RunTable(RunTable(t, first), ops), RunTable(t, ops))
  {
    var n := StoppedAfterRows(conf, dicts, size, first);
    ResolvedLegal(first, ChunkCalls(conf, dicts[..n], size));
    ResolvedLegal(ops, ChunkCalls(conf, dicts, size));
    SelectedPart(conf, cols, dicts, 0, n);
    assert dicts[0..n] == dicts[..n];
    forall k ensures Slice(conf.pk, RunTable(RunTable(t, first), ops), k) == Slice(conf.pk, RunTable(t, ops), k) {
      hide *;
      ChunksAt(conf, cols, dicts[..n], size, first, t, k);
      ChunksAt(conf, cols, dicts, size, ops, RunTable(t, first), k);
      ChunksAt(conf, cols, dicts, size, ops, t, k);
      MergedAgain(conf, cols, dicts, n, Slice(conf.pk, t, k), k);
    }
  }

  lemma MergedAgain(conf: TableConf, cols: set<string>, dicts: seq<Dict>, n: nat, rows: Table, k: Key)
    requires Selected(conf, cols, dicts) && n <= |dicts|
    ensures ReconciledAt(conf.pk, ReconciledAt(conf.pk, rows, Rows(dicts[..n]), k), Rows(dicts), k)
         == ReconciledAt(conf.pk, rows, Rows(dicts), k)
  {
    SelectedUnique(conf, cols, dicts);
    hide Slice, Rows, UniqueKeys, Selected, MergeAt;
    assert dicts == dicts[..n] + dicts[n..];
    RowsConcat(dicts[..n], dicts[n..]);
    SliceConcat(conf.pk, Rows(dicts[..n]), Rows(dicts[n..]), k);
    SliceUnique(conf.pk, Rows(dicts), k);
    var a, b := Slice(conf.pk, Rows(dicts[..n]), k), Slice(conf.pk, Rows(dicts[n..]), k);
    assert |a + b| <= 1;
    if a == [] {
      MergeNone(conf.pk, rows);
    } else {
      assert a == [a[0]] && a + b == a;
      MergeAbsorbs(conf.pk, rows, a[0], a[0]);
    }
  }

  lemma MergeNone(pk: seq<string>, rows: Table)
    ensures MergeAt(pk, rows, []) == rows
  {
  }
}
