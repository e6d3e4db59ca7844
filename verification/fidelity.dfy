/**
 What the stored rows say, in the values of the source: the history row of an event, the rows of a
 mirrored table, and those that the backfill and the reconcile script write.
 */
module Fidelity {
  import opened Values
  import opened Tables
  import opened Statements
  import opened Events
  import opened Columns
  import opened Batches
  import opened Cycles
  import opened HistoryTables
  import opened Parser
  import opened Codec
  import opened Source
  import opened Backfill
  import opened Reconcile

  // ---- The history row of an event -------------------------------------------------------------

  /** The row that an event leaves in the history: what an insert or an update wrote, what a delete removed. */
  ghost predicate Leaves(e: ChangeEvent, d: Dict) {
    match e.op
    case Insert => e.after == Some(d)
    case Update => e.after == Some(d)
    case Delete => e.before == Some(d)
  }

  /** Such a history row: the row's columns, then the operation, the LSN and the time. */
  ghost predicate HistoryHolds(r: Row, e: ChangeEvent, d: Dict) {
    && "_CDC_OP" in r && "_CDC_LSN" in r && "_CDC_TS" in r
    && r["_CDC_OP"] == Text(match e.op case Insert => "I" case Update => "U" case Delete => "D")
    && r["_CDC_LSN"] == Number(e.lsn) && r["_CDC_TS"] == Instant(e.tsUs)
    && HoldsRow(r - {"_CDC_OP", "_CDC_LSN", "_CDC_TS"}, d, false)
  }

  /** No column of the row is called as one of the three. */
  predicate NoCdcColumn(d: Dict) {
    forall c :: c in d.at ==> PgColToSf(c) !in {"_CDC_OP", "_CDC_LSN", "_CDC_TS"}
  }

  lemma CdcNamesApart()
    ensures "_CDC_OP" != "_CDC_LSN" && "_CDC_LSN" != "_CDC_TS" && "_CDC_OP" != "_CDC_TS"
  {
    assert |"_CDC_OP"| == 7 && |"_CDC_LSN"| == 8;
    assert "_CDC_OP"[5] == 'O' && "_CDC_TS"[5] == 'T';
  }

  lemma PutThree(d: Dict, a: string, x: Value, b: string, y: Value, c: string, z: Value)
    requires a != b && b != c && a != c && a !in d.at && b !in d.at && c !in d.at
    ensures var r := Put(Put(Put(d, a, x), b, y), c, z).at;
            && a in r && b in r && c in r && r[a] == x && r[b] == y && r[c] == z
            && r - {a, b, c} == d.at
  {
    PutAt(d, a, x);
    PutAt(Put(d, a, x), b, y);
    PutAt(Put(Put(d, a, x), b, y), c, z);
    hide *;
    TakeThree(d.at, a, x, b, y, c, z);
  }

  lemma PutAt(d: Dict, c: string, v: Value)
    ensures Put(d, c, v).at == d.at[c := v]
  {
  }

  lemma TakeThree(m: Row, a: string, x: Value, b: string, y: Value, c: string, z: Value)
    requires a != b && b != c && a != c && a !in m && b !in m && c !in m
    ensures var r := m[a := x][b := y][c := z];
            && a in r && b in r && c in r && r[a] == x && r[b] == y && r[c] == z
            && r - {a, b, c} == m
  {
    var r := m[a := x][b := y][c := z];
    assert (r - {a, b, c}).Keys == m.Keys;
  }

  lemma HistoryRowHolds(e: ChangeEvent, d: Dict)
    requires Leaves(e, d) && Apart(d.keys) && NoCdcColumn(d)
    ensures HistoryData(e) == Some(d) && HistoryHolds(HistoryDict(e).at, e, d)
  {
    hide PgColToSf, RenamedUpTo, Apart, HoldsRow, Put;
    RowHeld(d, false);
    CdcNamesApart();
    var out := RowToSf(d);
    NoCdcIn(out.at, d);
    PutThree(out, "_CDC_OP", Text(OpLabel(e.op)), "_CDC_LSN", Number(e.lsn), "_CDC_TS", Instant(e.tsUs));
  }

  lemma NoCdcIn(r: Row, d: Dict)
    requires HoldsRow(r, d, false) && NoCdcColumn(d)
    ensures "_CDC_OP" !in r && "_CDC_LSN" !in r && "_CDC_TS" !in r
  {
    hide PgColToSf, StoredAs;
  }

  /**
   One event more adds exactly the row it leaves, with its operation, LSN and time; an event that
   leaves no row adds none.
   */
  lemma {:induction false} HistoryGains(es: seq<ChangeEvent>, e: ChangeEvent)
    ensures HistoryDicts(es) <= HistoryDicts(es + [e])
    ensures (forall d :: !Leaves(e, d)) ==> HistoryDicts(es + [e]) == HistoryDicts(es)
    ensures forall d :: Leaves(e, d) && Apart(d.keys) && NoCdcColumn(d) ==>
              && |HistoryDicts(es + [e])| == |HistoryDicts(es)| + 1
              && HistoryHolds(HistoryDicts(es + [e])[|HistoryDicts(es)|].at, e, d)
  {
    hide HistoryDict, HistoryHolds, Apart, NoCdcColumn;
    assert (es + [e])[..|es|] == es;
    if HistoryData(e).Some? {
      assert Leaves(e, HistoryData(e).value);
    }
    forall d | Leaves(e, d) && Apart(d.keys) && NoCdcColumn(d)
      ensures |HistoryDicts(es + [e])| == |HistoryDicts(es)| + 1
      ensures HistoryHolds(HistoryDicts(es + [e])[|HistoryDicts(es)|].at, e, d)
    {
      HistoryRowHolds(e, d);
    }
  }

  /** Every event of a confirmed batch that leaves a row is in the history table, with all its values. */
  lemma {:induction false} EventIsInHistory(sc: Schema, cols: set<string>, c: Cycle, table: string, t: Table, i: nat,
                                            d: Dict) returns (r: Row)
    requires sc.Valid() && ValidCycle(sc, c) && table in sc.tables
    requires SameColumns(cols, HistoryDicts(TableEvents(sc, c.batch, table)))
    requires i < |TableEvents(sc, c.batch, table)|
    requires Leaves(TableEvents(sc, c.batch, table)[i], d) && Apart(d.keys) && NoCdcColumn(d)
    ensures AllLegal(OpsOn(CycleOps(c), sc.tables[table].history))
    ensures HistoryHolds(r, TableEvents(sc, c.batch, table)[i], d)
    ensures r in RunTable(t, OpsOn(CycleOps(c), sc.tables[table].history))
  {
    var es := TableEvents(sc, c.batch, table);
    hide *;
    CycleHistory(sc, c, table, t);
    AsFirstSameColumns(cols, HistoryDicts(es));
    var j := RowOfEvent(es, i, d);
    r := HistoryDicts(es)[j].at;
    RowInRows(HistoryDicts(es), j);
    HistoryRowsAre(es);
  }

  lemma HistoryRowsAre(es: seq<ChangeEvent>)
    ensures HistoryRows(es) == AsFirst(HistoryDicts(es))
  {
  }

  lemma RowInRows(dicts: seq<Dict>, j: nat)
    requires j < |dicts|
    ensures dicts[j].at in Rows(dicts)
  {
    assert Rows(dicts)[j] == dicts[j].at;
  }

  lemma RowOfEvent(es: seq<ChangeEvent>, i: nat, d: Dict) returns (j: nat)
    requires i < |es| && Leaves(es[i], d) && Apart(d.keys) && NoCdcColumn(d)
    ensures j < |HistoryDicts(es)| && HistoryHolds(HistoryDicts(es)[j].at, es[i], d)
  {
    hide HistoryDicts, HistoryHolds, Leaves, Apart, NoCdcColumn;
    HistoryGains(es[..i], es[i]);
    assert es == (es[..i] + [es[i]]) + es[i + 1..];
    HistoryDictsConcat(es[..i] + [es[i]], es[i + 1..]);
    j := |HistoryDicts(es[..i])|;
  }

  // ---- What the backfill stores ------------------------------------------------------------------

  /** Row `i` of what the backfill loads holds source row `i`, every document as its text. */
  lemma LoadedHolds(rows: seq<SourceRow>, cols: seq<string>, i: nat)
    requires SameKeys(rows, cols) && i < |rows| && Apart(rows[i].data.keys)
    ensures |Loaded(rows, cols)| == |rows| && HoldsRow(Loaded(rows, cols)[i], rows[i].data, true)
  {
    hide RenamedUpTo, HoldsRow, Apart;
    RowHeld(rows[i].data, true);
    ProjectOwnKeys(RowToLoad(rows[i].data), cols);
  }

  // ---- What the reconcile script stores ----------------------------------------------------------

  /** Under the key of a selected row each row of the target then has that row's values. */
  lemma {:induction false} ReconciledHolds(conf: TableConf, cols: set<string>, rows: seq<Dict>, size: nat,
                                           ops: seq<Done>, t: Table, j: nat, c: string, i: nat)
    requires size >= 1 && Selected(conf, cols, Converted(rows))
    requires Resolves(ops, ChunkCalls(conf, Converted(rows), size))
    requires j < |rows| && Apart(rows[j].keys) && c in rows[j].at
    ensures AllLegal(ops)
    ensures var now := Slice(conf.pk, RunTable(t, ops), KeyOf(conf.pk, Converted(rows)[j].at));
            now != [] && (i < |now| ==> StoredAs(c, rows[j].at[c], false, Get(now[i], PgColToSf(c))))
  {
    var dicts := Converted(rows);
    var k := KeyOf(conf.pk, dicts[j].at);
    assert dicts[j] == RowToSf(rows[j]);
    ConvertedHolds(conf, cols, rows, j, c);
    hide *;
    TargetAgrees(conf, cols, dicts, size, ops, t, k);
  }

  lemma ConvertedHolds(conf: TableConf, cols: set<string>, rows: seq<Dict>, j: nat, c: string)
    requires Selected(conf, cols, Converted(rows)) && j < |rows| && Apart(rows[j].keys) && c in rows[j].at
    ensures var k := KeyOf(conf.pk, Converted(rows)[j].at);
            && Slice(conf.pk, Rows(Converted(rows)), k) == [Converted(rows)[j].at]
            && PgColToSf(c) in cols
            && StoredAs(c, rows[j].at[c], false, Get(Converted(rows)[j].at, PgColToSf(c)))
  {
    hide *;
    ConvertedIs(rows, j);
    RowHeld(rows[j], false);
    ColumnHeld(RowToSf(rows[j]).at, rows[j], c);
    SelectedOnce(conf, cols, Converted(rows), j);
  }

  lemma ConvertedIs(rows: seq<Dict>, j: nat)
    requires j < |rows|
    ensures |Converted(rows)| == |rows| && Converted(rows)[j] == RowToSf(rows[j])
    ensures RowToSf(rows[j]) == RenamedUpTo(rows[j], |rows[j].keys|, false)
  {
    hide RenamedUpTo;
  }

  lemma ColumnHeld(r: Row, d: Dict, c: string)
    requires HoldsRow(r, d, false) && c in d.at
    ensures PgColToSf(c) in r && StoredAs(c, d.at[c], false, Get(r, PgColToSf(c)))
  {
    hide PgColToSf, StoredAs;
  }

  lemma SelectedOnce(conf: TableConf, cols: set<string>, dicts: seq<Dict>, j: nat)
    requires Selected(conf, cols, dicts) && j < |dicts|
    ensures Slice(conf.pk, Rows(dicts), KeyOf(conf.pk, dicts[j].at)) == [dicts[j].at]
    ensures dicts[j].at.Keys == cols
  {
    hide KeyOf;
    var k := KeyOf(conf.pk, dicts[j].at);
    RowInRows(dicts, j);
    SliceMember(conf.pk, Rows(dicts), k, dicts[j].at);
    SliceUnique(conf.pk, Rows(dicts), k);
  }

  // ---- What a mirrored table holds -----------------------------------------------------------------

  /** The rows of the source have columns that stay apart, and no documents: the decoder makes none. */
  ghost predicate Plain(m: Snapshot) {
    forall k :: k in m ==> Apart(m[k].row.keys) && NoDocument(m[k].row)
  }

  predicate NoDocument(d: Dict) { forall c :: c in d.at ==> !d.at[c].Document? }

  /** The columns of a source row, renamed, with its very values, and no other column. */
  ghost predicate SameValues(r: Row, d: Dict) {
    && (forall c :: c in d.at ==> PgColToSf(c) in r && r[PgColToSf(c)] == d.at[c])
    && (forall name :: name in r ==> exists c :: c in d.at && PgColToSf(c) == name)
  }

  lemma PlainRowHeld(d: Dict)
    requires Apart(d.keys) && NoDocument(d)
    ensures SameValues(RowToSf(d).at, d)
  {
    hide PgColToSf, RenamedUpTo, Apart;
    RowHeld(d, false);
  }

  /** A table that mirrors the source holds, under every key, the one row of the source with its values. */
  lemma MirroredValues(pk: seq<string>, t: Table, m: Snapshot, k: Key)
    requires Mirrors(pk, t, m) && Plain(m)
    ensures k !in m ==> Slice(pk, t, k) == []
    ensures k in m ==> |Slice(pk, t, k)| == 1 && SameValues(Slice(pk, t, k)[0], m[k].row)
  {
    hide Slice, RowToSf, SameValues, Mirrors, Apart, NoDocument;
    MirrorsAt(pk, t, m, k);
    if k in m {
      PlainRowHeld(m[k].row);
    }
  }

  lemma {:induction false} TrueRowPlain(columns: seq<Column>, t: seq<ColumnData>, was: Dict)
    requires NoDocument(was)
    ensures NoDocument(TrueRow(columns, t, was))
  {
    hide ColumnName, Put, NoDocument, TrueValue;
    EmptyIsPlain();
    if t != [] {
      var name := ColumnName(columns, |t| - 1);
      TrueRowPlain(columns, t[..|t| - 1], was);
      NoDocumentPut(TrueRow(columns, t[..|t| - 1], was), name, was, t[|t| - 1]);
    }
  }

  lemma NoDocumentPut(d: Dict, name: string, was: Dict, c: ColumnData)
    requires NoDocument(d) && NoDocument(was)
    ensures NoDocument(Put(d, name, TrueValue(c, name, was)))
  {
  }

  lemma TrueRowFits(columns: seq<Column>, t: seq<ColumnData>, was: Dict)
    requires TupleFits(columns, t) && NoDocument(was)
    ensures Apart(TrueRow(columns, t, was).keys) && NoDocument(TrueRow(columns, t, was))
  {
    hide TrueRow, Apart, NoDocument, Distinct;
    TrueRowPlain(columns, t, was);
    ApartAreDistinct(Names(columns));
    TrueShape(columns, t, was);
    assert Names(columns)[..|t|] == Names(columns);
  }

  lemma InsertKeepsPlain(v: View, m: Snapshot, e: Made)
    requires Plain(m) && Allowed(v, m, e) && e.sent.msg.InsertMsg?
    ensures Plain(Change(v, m, e))
  {
    hide TrueRow, RowOf, Apart, NoDocument, RowToSf, Schema.Normalize, SfKey, RowFits;
    EmptyIsPlain();
    var oid, new_ := e.sent.msg.oid, e.sent.msg.new_;
    if v.Concerns(e.context, oid) {
      DecodedIsTrueOfNothing(e.context.relations[oid].columns, new_);
      TrueRowFits(e.context.relations[oid].columns, new_, EMPTY_DICT);
    }
  }

  lemma UpdateKeepsPlain(v: View, m: Snapshot, e: Made)
    requires Plain(m) && Allowed(v, m, e) && e.sent.msg.UpdateMsg?
    ensures Plain(Change(v, m, e))
  {
    hide TrueRow, RowOf, Apart, NoDocument, RowToSf, Schema.Normalize, SfKey, RowFits, OldKey, ChangesKey,
      View.Concerns;
    EmptyIsPlain();
    if v.Concerns(e.context, e.sent.msg.oid) {
      TrueRowFits(ColumnsIn(v, e), e.sent.msg.new_, RowAt(m, OldKey(v, e)));
    }
  }

  lemma ChangeKeepsPlain(v: View, m: Snapshot, e: Made)
    requires Plain(m) && Allowed(v, m, e)
    ensures Plain(Change(v, m, e))
  {
    hide TrueRow, RowOf, Apart, NoDocument, SfKey, View.Concerns, Allowed;
    match e.sent.msg
    case InsertMsg(_, _) => InsertKeepsPlain(v, m, e);
    case UpdateMsg(_, _, _) => UpdateKeepsPlain(v, m, e);
    case _ =>
  }

  lemma EmptyIsPlain()
    ensures NoDocument(EMPTY_DICT)
  {
  }

  /** Whatever the source does, its rows stay so. */
  lemma {:induction false} AfterIsPlain(v: View, m: Snapshot, made: seq<Made>)
    requires Plain(m) && AllowedAll(v, m, made)
    ensures Plain(After(v, m, made))
  {
    hide Plain, Allowed, Change;
    if made != [] {
      var n := |made| - 1;
      AllowedPrefix(v, m, made, n);
      AfterIsPlain(v, m, made[..n]);
      ChangeKeepsPlain(v, After(v, m, made[..n]), made[n]);
    }
  }

  /**
   End to end, value by value: batches, retries and deduplication included, the current table holds
   for each key of the source exactly one row, with the source's value in every column.
   */
  lemma {:induction false} RunHoldsSource(v: View, cycles: seq<Cycle>, t: Table, m: Snapshot, made: seq<Made>, k: Key)
    requires v.Ok() && ValidCycles(v.sc, cycles) && AllFaithful(v.sc, cycles, v.table)
    requires TableEvents(v.sc, LogOf(cycles), v.table) == Share(v, made)
    requires SnapshotOk(v, m) && Mirrors(v.pk, t, m) && AllowedAll(v, m, made) && NothingBreaks(v, m, made) && Plain(m)
    ensures var name := v.sc.tables[v.table].current;
            && AllLegal(OpsOn(CyclesOps(cycles), name))
            && var rows, now := Slice(v.pk, AfterCycles(t, cycles, name), k), After(v, m, made);
               if k in now then |rows| == 1 && SameValues(rows[0], now[k].row) else rows == []
  {
    assert v.table in v.sc.tables;
    hide *;
    RunMirrorsSource(v, cycles, t, m, made);
    AfterIsPlain(v, m, made);
    MirroredValues(v.pk, AfterCycles(t, cycles, v.sc.tables[v.table].current), After(v, m, made), k);
  }
}
