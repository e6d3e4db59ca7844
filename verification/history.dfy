/** History tables: every event at least once, and the event log recoverable by LSN. */
module HistoryTables {
  import opened Values
  import opened Tables
  import opened Statements
  import opened Events
  import opened Batches
  import opened Attempts
  import opened Cycles

  const LSN := ["_CDC_LSN"]

  /** The rows one history INSERT adds. */
  function HistoryRows(es: seq<ChangeEvent>): Table { AsFirst(HistoryDicts(es)) }

  ghost predicate StartedHistory(conf: TableConf, es: seq<ChangeEvent>, ops: seq<Done>) {
    Part(ops, HistoryCalls(conf, es))
  }

  /** The history INSERT is one statement: it adds all its rows or none. */
  lemma HistoryEffect(conf: TableConf, es: seq<ChangeEvent>, ops: seq<Done>, t: Table)
    requires StartedHistory(conf, es, ops)
    ensures AllLegal(ops)
    ensures RunTable(t, ops) == if ops == [] then t else t + HistoryRows(es)
    ensures |ops| == |HistoryCalls(conf, es)| ==> RunTable(t, ops) == t + HistoryRows(es)
  {
    var ds := HistoryDicts(es);
    if ops != [] {
      assert ops[0].call == HistoryCalls(conf, es)[0];
      BindExact(Rows(ds), ds[0].keys);
      assert ops[..|ops| - 1] == [];
    } else {
      assert t + [] == t;
    }
  }

  lemma AttemptOnHistory(sc: Schema, batch: seq<ChangeEvent>, a: Attempt, table: string)
    requires sc.Valid() && AllMapped(sc, batch) && ValidAttempt(sc, batch, a) && table in sc.tables
    ensures StartedHistory(sc.tables[table], TableEvents(sc, batch[..a.size], table),
                           OpsOn(a.ops, sc.tables[table].history))
  {
    hide Schema.Valid, Resolves, Program, HistoryCalls;
    var conf, calls := sc.tables[table], Program(sc, batch[..a.size]);
    ProgramOn(sc, batch[..a.size], table);
    CallsOnPrefix(calls, |a.ops|, conf.history);
    ResolvesOn(a.ops, calls[..|a.ops|], conf.history);
    var own := CallsOn(calls[..|a.ops|], conf.history);
    assert own == CallsOn(calls, conf.history)[..|own|];
    ResolvedLegal(OpsOn(a.ops, conf.history), own);
  }

  lemma FinalOnHistory(sc: Schema, batch: seq<ChangeEvent>, final: seq<Done>, table: string)
    requires sc.Valid() && AllMapped(sc, batch) && Resolves(final, Program(sc, batch)) && table in sc.tables
    ensures var own := OpsOn(final, sc.tables[table].history);
            && StartedHistory(sc.tables[table], TableEvents(sc, batch, table), own)
            && |own| == |HistoryCalls(sc.tables[table], TableEvents(sc, batch, table))|
  {
    hide Schema.Valid, Resolves, Program, HistoryCalls;
    var conf, calls := sc.tables[table], HistoryCalls(sc.tables[table], TableEvents(sc, batch, table));
    ProgramOn(sc, batch, table);
    ResolvesOn(final, Program(sc, batch), conf.history);
    ResolvedLegal(OpsOn(final, conf.history), calls);
    assert calls[..|calls|] == calls;
  }

  /** Whether this attempt's history INSERT for the table took effect. */
  predicate Inserted(conf: TableConf, a: Attempt) { OpsOn(a.ops, conf.history) != [] }

  /** The first events of a batch, as many as an attempt had. */
  function Had(batch: seq<ChangeEvent>, a: Attempt): seq<ChangeEvent> {
    if a.size <= |batch| then batch[..a.size] else batch
  }

  /** What the stopped attempts added to a history table. */
  function LeftBehind(sc: Schema, batch: seq<ChangeEvent>, attempts: seq<Attempt>, table: string): Table
    requires table in sc.tables
  {
    if attempts == [] then []
    else
      var a := attempts[|attempts| - 1];
      LeftBehind(sc, batch, attempts[..|attempts| - 1], table)
      + (if Inserted(sc.tables[table], a) then HistoryRows(TableEvents(sc, Had(batch, a), table)) else [])
  }

  lemma {:induction false} AttemptsHistory(sc: Schema, batch: seq<ChangeEvent>, attempts: seq<Attempt>, table: string,
                                           t: Table)
    requires sc.Valid() && AllMapped(sc, batch) && ValidAttempts(sc, batch, attempts) && table in sc.tables
    ensures AllLegal(OpsOn(OpsOf(attempts), sc.tables[table].history))
    ensures RunTable(t, OpsOn(OpsOf(attempts), sc.tables[table].history))
         == t + LeftBehind(sc, batch, attempts, table)
  {
    hide Schema.Valid, ValidAttempt, HistoryRows, TableEvents, AllLegal, RunTable, OpsOn, Inserted;
    var conf := sc.tables[table];
    AttemptsLegalOn(sc, batch, attempts, conf.history);
    if attempts == [] {
      NoHistory(t, conf.history);
    } else {
      var init, a := attempts[..|attempts| - 1], attempts[|attempts| - 1];
      var before := LeftBehind(sc, batch, init, table);
      AttemptsHistory(sc, batch, init, table, t);
      AttemptHistory(sc, batch, a, table, t + before);
      OpsOnConcat(OpsOf(init), a.ops, conf.history);
      RunTableConcat(t, OpsOn(OpsOf(init), conf.history), OpsOn(a.ops, conf.history));
      assert before + [] == before;
    }
  }

  lemma HadIsPrefix(sc: Schema, batch: seq<ChangeEvent>, a: Attempt, table: string)
    ensures TableEvents(sc, Had(batch, a), table) <= TableEvents(sc, batch, table)
  {
    if a.size <= |batch| {
      TableEventsPrefix(sc, batch, a.size, table);
    }
  }

  lemma NoHistory(t: Table, name: string)
    ensures AllLegal([]) && OpsOn([], name) == [] && RunTable(t, []) == t == t + []
  {
  }

  lemma AttemptHistory(sc: Schema, batch: seq<ChangeEvent>, a: Attempt, table: string, u: Table)
    requires sc.Valid() && AllMapped(sc, batch) && ValidAttempt(sc, batch, a) && table in sc.tables
    ensures var own := OpsOn(a.ops, sc.tables[table].history);
            && AllLegal(own)
            && RunTable(u, own) ==
               if Inserted(sc.tables[table], a) then u + HistoryRows(TableEvents(sc, Had(batch, a), table)) else u
  {
    assert Had(batch, a) == batch[..a.size];
    hide ValidAttempt, Schema.Valid, HistoryRows, StartedHistory, AllLegal, RunTable;
    AttemptOnHistory(sc, batch, a, table);
    HistoryEffect(sc.tables[table], TableEvents(sc, Had(batch, a), table), OpsOn(a.ops, sc.tables[table].history), u);
  }

  /** A confirmed batch appends what its stopped attempts left behind, then each of its rows once. */
  lemma CycleHistory(sc: Schema, c: Cycle, table: string, t: Table)
    requires sc.Valid() && ValidCycle(sc, c) && table in sc.tables
    ensures AllLegal(OpsOn(CycleOps(c), sc.tables[table].history))
    ensures RunTable(t, OpsOn(CycleOps(c), sc.tables[table].history))
         == t + LeftBehind(sc, c.batch, c.failed, table) + HistoryRows(TableEvents(sc, c.batch, table))
  {
    hide Schema.Valid, ValidAttempts, HistoryRows, TableEvents, Resolves, LeftBehind, StartedHistory, AllLegal,
      RunTable;
    var conf := sc.tables[table];
    var stopped, own := OpsOn(OpsOf(c.failed), conf.history), OpsOn(c.final, conf.history);
    AttemptsHistory(sc, c.batch, c.failed, table, t);
    FinalOnHistory(sc, c.batch, c.final, table);
    HistoryEffect(conf, TableEvents(sc, c.batch, table), own, t + LeftBehind(sc, c.batch, c.failed, table));
    OpsOnConcat(OpsOf(c.failed), c.final, conf.history);
    CycleLegal(sc, c);
    LegalOn(CycleOps(c), conf.history);
    RunTableConcat(t, stopped, own);
  }

  // ---- How often an event occurs -----------------------------------------------------------------

  /** The events that carry row data, in order: those with a history row. */
  function HistoryEvents(es: seq<ChangeEvent>): seq<ChangeEvent> {
    if es == [] then []
    else HistoryEvents(es[..|es| - 1]) + (if HistoryData(es[|es| - 1]).Some? then [es[|es| - 1]] else [])
  }

  ghost predicate LsnsDistinct(es: seq<ChangeEvent>) {
    var hs := HistoryEvents(es);
    forall i, j :: 0 <= i < j < |hs| ==> hs[i].lsn != hs[j].lsn
  }

  lemma HistoryDictLsn(e: ChangeEvent)
    requires HistoryData(e).Some?
    ensures "_CDC_LSN" in HistoryDict(e).at && HistoryDict(e).at["_CDC_LSN"] == Number(e.lsn)
  {
    assert |"_CDC_LSN"| != |"_CDC_TS"|;
  }

  lemma {:induction false} HistoryDictsLsn(es: seq<ChangeEvent>)
    ensures |HistoryDicts(es)| == |HistoryEvents(es)|
    ensures forall i :: 0 <= i < |HistoryDicts(es)| ==>
              "_CDC_LSN" in HistoryDicts(es)[i].at
              && HistoryDicts(es)[i].at["_CDC_LSN"] == Number(HistoryEvents(es)[i].lsn)
  {
    hide HistoryDict;
    if es == [] {
    } else {
      HistoryDictsLsn(es[..|es| - 1]);
      if HistoryData(es[|es| - 1]).Some? {
        HistoryDictLsn(es[|es| - 1]);
      }
    }
  }

  lemma HistoryRowLsn(es: seq<ChangeEvent>, i: nat)
    requires i < |HistoryRows(es)|
    ensures |HistoryRows(es)| == |HistoryEvents(es)|
    ensures KeyOf(LSN, HistoryRows(es)[i]) == [Number(HistoryEvents(es)[i].lsn)]
  {
    hide HistoryDicts, HistoryEvents;
    HistoryDictsLsn(es);
    var ds := HistoryDicts(es);
    assert "_CDC_LSN" in ds[0].keys;
    assert HistoryRows(es)[i] == Project(ds[i].at, ds[0].keys);
  }

  lemma HistoryRowsUnique(es: seq<ChangeEvent>)
    requires LsnsDistinct(es)
    ensures UniqueKeys(LSN, HistoryRows(es))
  {
    hide HistoryRows, HistoryEvents;
    forall i, j | 0 <= i < j < |HistoryRows(es)|
      ensures KeyOf(LSN, HistoryRows(es)[i]) != KeyOf(LSN, HistoryRows(es)[j])
    {
      HistoryRowLsn(es, i);
      HistoryRowLsn(es, j);
    }
  }

  lemma HistoryRowsPrefix(part: seq<ChangeEvent>, es: seq<ChangeEvent>)
    requires part <= es
    ensures HistoryRows(part) <= HistoryRows(es)
  {
    hide HistoryDicts;
    assert es == part + es[|part|..];
    HistoryDictsConcat(part, es[|part|..]);
  }

  lemma CountInPrefix(rows: Table, n: nat, j: nat)
    requires UniqueKeys(LSN, rows) && n <= |rows| && j < |rows|
    ensures multiset(rows[..n])[rows[j]] == if j < n then 1 else 0
  {
    hide KeyOf;
    var k := KeyOf(LSN, rows[j]);
    assert UniqueKeys(LSN, rows[..n]);
    SliceCount(LSN, rows[..n], k, rows[j]);
    SliceUnique(LSN, rows[..n], k);
    var s := Slice(LSN, rows[..n], k);
    if j < n {
      assert rows[..n][j] == rows[j];
      SliceMember(LSN, rows[..n], k, rows[j]);
      assert s == [rows[j]];
    } else {
      forall i | 0 <= i < n ensures rows[..n][i] != rows[j] {
        assert KeyOf(LSN, rows[i]) != KeyOf(LSN, rows[j]);
      }
    }
  }

  /** How many copies of a row the stopped attempts had inserted. */
  function CopiesLeftBehind(sc: Schema, batch: seq<ChangeEvent>, attempts: seq<Attempt>, table: string, r: Row): nat
    requires table in sc.tables
  {
    if attempts == [] then 0
    else
      var a := attempts[|attempts| - 1];
      CopiesLeftBehind(sc, batch, attempts[..|attempts| - 1], table, r)
      + (if Inserted(sc.tables[table], a) then multiset(HistoryRows(TableEvents(sc, Had(batch, a), table)))[r] else 0)
  }

  lemma {:induction false} LeftBehindCopies(sc: Schema, batch: seq<ChangeEvent>, attempts: seq<Attempt>,
                                            table: string, r: Row)
    requires table in sc.tables
    ensures multiset(LeftBehind(sc, batch, attempts, table))[r] == CopiesLeftBehind(sc, batch, attempts, table, r)
  {
    hide HistoryRows, TableEvents, Inserted, Had;
    if attempts == [] {
    } else {
      LeftBehindCopies(sc, batch, attempts[..|attempts| - 1], table, r);
    }
  }

  /** How many stopped attempts had inserted the `j`-th history row of the table. */
  function TimesLeftBehind(sc: Schema, batch: seq<ChangeEvent>, attempts: seq<Attempt>, table: string, j: nat): nat
    requires table in sc.tables
  {
    if attempts == [] then 0
    else
      var a := attempts[|attempts| - 1];
      TimesLeftBehind(sc, batch, attempts[..|attempts| - 1], table, j)
      + (if Inserted(sc.tables[table], a) && j < |HistoryEvents(TableEvents(sc, Had(batch, a), table))| then 1 else 0)
  }

  lemma {:induction false} LeftBehindTimes(sc: Schema, batch: seq<ChangeEvent>, attempts: seq<Attempt>, table: string,
                                           j: nat)
    requires table in sc.tables
    requires LsnsDistinct(TableEvents(sc, batch, table)) && j < |HistoryRows(TableEvents(sc, batch, table))|
    ensures CopiesLeftBehind(sc, batch, attempts, table, HistoryRows(TableEvents(sc, batch, table))[j])
         == TimesLeftBehind(sc, batch, attempts, table, j)
  {
    hide HistoryRows, TableEvents, LsnsDistinct, Inserted, UniqueKeys, HistoryEvents, Had;
    if attempts == [] {
    } else {
      var init, a := attempts[..|attempts| - 1], attempts[|attempts| - 1];
      LeftBehindTimes(sc, batch, init, table, j);
      InsertCount(TableEvents(sc, Had(batch, a), table), TableEvents(sc, batch, table), j) by {
        HadIsPrefix(sc, batch, a, table);
      }
    }
  }

  lemma InsertCount(part: seq<ChangeEvent>, es: seq<ChangeEvent>, j: nat)
    requires part <= es && LsnsDistinct(es) && j < |HistoryRows(es)|
    ensures multiset(HistoryRows(part))[HistoryRows(es)[j]] == if j < |HistoryEvents(part)| then 1 else 0
  {
    hide HistoryRows, HistoryEvents, LsnsDistinct, UniqueKeys;
    HistoryRowsUnique(es);
    HistoryRowsPrefix(part, es);
    var n := |HistoryRows(part)|;
    assert HistoryRows(part) == HistoryRows(es)[..n];
    CountInPrefix(HistoryRows(es), n, j);
    HistoryRowsLength(part);
  }

  lemma HistoryRowsLength(es: seq<ChangeEvent>)
    ensures |HistoryRows(es)| == |HistoryEvents(es)|
  {
    HistoryDictsLsn(es);
  }

  /**
   At least once, counted exactly: a confirmed batch adds its own copies of each history row, and
   the copies that its stopped attempts had inserted, to those the table held before.
   */
  lemma {:induction false} EventOccurs(sc: Schema, c: Cycle, table: string, t: Table, r: Row)
    requires sc.Valid() && ValidCycle(sc, c) && table in sc.tables
    ensures var own := OpsOn(CycleOps(c), sc.tables[table].history);
            && AllLegal(own)
            && multiset(RunTable(t, own))[r]
            == multiset(t)[r] + CopiesLeftBehind(sc, c.batch, c.failed, table, r)
               + multiset(HistoryRows(TableEvents(sc, c.batch, table)))[r]
  {
    hide Schema.Valid, ValidCycle, HistoryRows, LeftBehind, TableEvents, AllLegal, RunTable;
    CycleHistory(sc, c, table, t);
    LeftBehindCopies(sc, c.batch, c.failed, table, r);
  }

  /** Where LSNs are distinct that is one copy for the batch and one for each attempt that inserted the event. */
  lemma {:induction false} DistinctEventOccurs(sc: Schema, c: Cycle, table: string, t: Table, j: nat)
    requires sc.Valid() && ValidCycle(sc, c) && table in sc.tables
    requires LsnsDistinct(TableEvents(sc, c.batch, table)) && j < |HistoryRows(TableEvents(sc, c.batch, table))|
    ensures var row, own := HistoryRows(TableEvents(sc, c.batch, table))[j],
            OpsOn(CycleOps(c), sc.tables[table].history);
            && AllLegal(own)
            && multiset(RunTable(t, own))[row]
               == multiset(t)[row] + TimesLeftBehind(sc, c.batch, c.failed, table, j) + 1
  {
    hide Schema.Valid, ValidCycle, HistoryRows, LsnsDistinct, TableEvents, AllLegal, RunTable, HistoryEvents;
    var es := TableEvents(sc, c.batch, table);
    EventOccurs(sc, c, table, t, HistoryRows(es)[j]);
    LeftBehindTimes(sc, c.batch, c.failed, table, j);
    InsertCount(es, es, j);
    HistoryRowsLength(es);
  }

  // ---- Recovering the log ---------------------------------------------------------------------------

  /** The history rows of the confirmed batches, each once, in order. */
  function LogRows(sc: Schema, cycles: seq<Cycle>, table: string): Table {
    if cycles == [] then []
    else LogRows(sc, cycles[..|cycles| - 1], table) + HistoryRows(TableEvents(sc, cycles[|cycles| - 1].batch, table))
  }

  lemma {:induction false} LeftBehindIsPart(sc: Schema, batch: seq<ChangeEvent>, attempts: seq<Attempt>,
                                            table: string, r: Row)
    requires table in sc.tables
    ensures r in LeftBehind(sc, batch, attempts, table) ==> r in HistoryRows(TableEvents(sc, batch, table))
  {
    hide HistoryRows, TableEvents, Inserted;
    if attempts == [] {
    } else {
      var init, a := attempts[..|attempts| - 1], attempts[|attempts| - 1];
      LeftBehindIsPart(sc, batch, init, table, r);
      HadIsPrefix(sc, batch, a, table);
      HistoryRowsPrefix(TableEvents(sc, Had(batch, a), table), TableEvents(sc, batch, table));
    }
  }

  /** What a run adds to a history table: exactly the rows of the log, some of them repeated. */
  lemma {:induction false} HistoryHasLog(sc: Schema, cycles: seq<Cycle>, table: string, t: Table, r: Row)
    requires sc.Valid() && ValidCycles(sc, cycles) && table in sc.tables
    ensures AllLegal(OpsOn(CyclesOps(cycles), sc.tables[table].history))
    ensures r in AfterCycles(t, cycles, sc.tables[table].history) <==> r in t || r in LogRows(sc, cycles, table)
  {
    hide Schema.Valid, HistoryRows, TableEvents, AllLegal, LeftBehind, CycleOps, RunTable;
    var conf := sc.tables[table];
    CyclesLegal(sc, cycles);
    LegalOn(CyclesOps(cycles), conf.history);
    if cycles == [] {
      NoHistory(t, conf.history);
    } else {
      var init, c := cycles[..|cycles| - 1], cycles[|cycles| - 1];
      HistoryHasLog(sc, init, table, t, r);
      assert ValidCycle(sc, c);
      CycleHistory(sc, c, table, AfterCycles(t, init, conf.history));
      LeftBehindIsPart(sc, c.batch, c.failed, table, r);
      OpsOnConcat(CyclesOps(init), CycleOps(c), conf.history);
      RunTableConcat(t, OpsOn(CyclesOps(init), conf.history), OpsOn(CycleOps(c), conf.history));
    }
  }

  lemma NoEvents(sc: Schema, table: string)
    ensures HistoryEvents(TableEvents(sc, [], table)) == []
  {
  }

  lemma {:induction false} LogRowsAreLog(sc: Schema, cols: set<string>, cycles: seq<Cycle>, table: string)
    requires SameColumns(cols, HistoryDicts(TableEvents(sc, LogOf(cycles), table)))
    ensures LogRows(sc, cycles, table) == Rows(HistoryDicts(TableEvents(sc, LogOf(cycles), table)))
  {
    hide TableEvents, HistoryDicts, HistoryEvents;
    if cycles == [] {
      NoEvents(sc, table);
      HistoryDictsLsn(TableEvents(sc, [], table));
    } else {
      var init, es := cycles[..|cycles| - 1], TableEvents(sc, cycles[|cycles| - 1].batch, table);
      var before, here := HistoryDicts(TableEvents(sc, LogOf(init), table)), HistoryDicts(es);
      TableEventsConcat(sc, LogOf(init), cycles[|cycles| - 1].batch, table);
      HistoryDictsConcat(TableEvents(sc, LogOf(init), table), es);
      SameColumnsParts(cols, before, here);
      LogRowsAreLog(sc, cols, init, table);
      AsFirstSameColumns(cols, here);
      assert Rows(before + here) == Rows(before) + Rows(here);
    }
  }

  lemma SameColumnsParts(cols: set<string>, a: seq<Dict>, b: seq<Dict>)
    requires SameColumns(cols, a + b)
    ensures SameColumns(cols, a) && SameColumns(cols, b)
  {
    assert forall i :: 0 <= i < |a| ==> a[i] == (a + b)[i];
    assert forall i :: 0 <= i < |b| ==> b[i] == (a + b)[|a| + i];
  }

  /** Tables that are the same bag agree on whether their keys are unique. */
  lemma SameRowsUnique(pk: seq<string>, a: Table, b: Table)
    requires SameRows(a, b) && UniqueKeys(pk, a)
    ensures UniqueKeys(pk, b)
  {
    forall k ensures |Slice(pk, b, k)| <= 1 {
      hide UniqueKeys, Slice;
      SliceUnique(pk, a, k);
      SameRowsBySlice(pk, a, b, k);
      assert |multiset(Slice(pk, a, k))| == |multiset(Slice(pk, b, k))|;
    }
    UniqueFromSlices(pk, b);
  }

  /** The history rows of a log have unique LSNs exactly when its events with row data do. */
  lemma LogLsnsUnique(es: seq<ChangeEvent>)
    ensures UniqueKeys(LSN, Rows(HistoryDicts(es))) <==> LsnsDistinct(es)
  {
    hide HistoryDicts, HistoryEvents;
    HistoryDictsLsn(es);
    var rows := Rows(HistoryDicts(es));
    forall i | 0 <= i < |rows| ensures KeyOf(LSN, rows[i]) == [Number(HistoryEvents(es)[i].lsn)] {
    }
  }

  /**
   Deduplicating a history table by `_CDC_LSN`, whichever duplicate is kept, gives back exactly
   the history row of each confirmed event if and only if their LSNs are distinct in the table.
   */
  lemma {:induction false} DedupByLsnRecoversLog(sc: Schema, cols: set<string>, cycles: seq<Cycle>, table: string,
                                                 picked: Table)
    requires sc.Valid() && ValidCycles(sc, cycles) && table in sc.tables
    requires SameColumns(cols, HistoryDicts(TableEvents(sc, LogOf(cycles), table)))
    requires AllLegal(OpsOn(CyclesOps(cycles), sc.tables[table].history))
    requires IsPick(LSN, AfterCycles([], cycles, sc.tables[table].history), picked)
    ensures SameRows(picked, Rows(HistoryDicts(TableEvents(sc, LogOf(cycles), table))))
       <==> LsnsDistinct(TableEvents(sc, LogOf(cycles), table))
  {
    hide Schema.Valid, ValidCycles, LogRows, AllLegal, AfterCycles, TableEvents, HistoryDicts, LsnsDistinct, UniqueKeys,
      SameRows, SameColumns, Rows;
    var hist, log := AfterCycles([], cycles, sc.tables[table].history), LogRows(sc, cycles, table);
    LogRowsAreLog(sc, cols, cycles, table);
    LogLsnsUnique(TableEvents(sc, LogOf(cycles), table));
    if UniqueKeys(LSN, log) {
      hide IsPick;
      forall r ensures r in hist <==> r in log {
        HistoryHasLog(sc, cycles, table, [], r);
      }
      PickOfCopies(LSN, log, hist, picked);
    } else if SameRows(picked, log) {
      SameRowsUnique(LSN, picked, log);
    }
  }
}
