/**
 Whole runs of the sink. A cycle is one confirmed batch: the stopped attempts made while the
 batch was growing, then the write that completed. A run is a sequence of cycles.
 */
module Cycles {
  import opened Tables
  import opened Statements
  import opened Events
  import opened Batches
  import opened Replay
  import opened Attempts

  datatype Cycle = Cycle(batch: seq<ChangeEvent>, failed: seq<Attempt>, final: seq<Done>)

  ghost predicate ValidCycle(sc: Schema, c: Cycle) {
    && c.batch != []
    && AllMapped(sc, c.batch)
    && ValidAttempts(sc, c.batch, c.failed)
    && Resolves(c.final, Program(sc, c.batch))
  }

  ghost predicate ValidCycles(sc: Schema, cycles: seq<Cycle>) {
    forall i :: 0 <= i < |cycles| ==> ValidCycle(sc, cycles[i])
  }

  function CycleOps(c: Cycle): seq<Done> { OpsOf(c.failed) + c.final }

  function CyclesOps(cycles: seq<Cycle>): seq<Done> {
    if cycles == [] then [] else CyclesOps(cycles[..|cycles| - 1]) + CycleOps(cycles[|cycles| - 1])
  }

  /** The confirmed batches, one after the other. */
  function LogOf(cycles: seq<Cycle>): seq<ChangeEvent> {
    if cycles == [] then [] else LogOf(cycles[..|cycles| - 1]) + cycles[|cycles| - 1].batch
  }

  lemma CycleLegal(sc: Schema, c: Cycle)
    requires ValidCycle(sc, c)
    ensures AllLegal(CycleOps(c))
  {
    hide Program, Resolves, ValidAttempts, Legal;
    AttemptsLegal(sc, c.batch, c.failed);
    ResolvedLegal(c.final, Program(sc, c.batch));
  }

  lemma {:induction false} CyclesLegal(sc: Schema, cycles: seq<Cycle>)
    requires ValidCycles(sc, cycles)
    ensures AllLegal(CyclesOps(cycles)) && AllMapped(sc, LogOf(cycles))
  {
    hide Program, Resolves, ValidAttempts, Legal, Schema.Normalize;
    if cycles == [] {
    } else {
      CyclesLegal(sc, cycles[..|cycles| - 1]);
      assert ValidCycle(sc, cycles[|cycles| - 1]);
      CycleLegal(sc, cycles[|cycles| - 1]);
    }
  }

  // ---- A run against replaying its log --------------------------------------------------------

  /** The condition under which a batch equals replay, on one table; see `Replay`. */
  ghost predicate Faithful(sc: Schema, c: Cycle, table: string)
    requires table in sc.tables
  {
    var es, pk := TableEvents(sc, c.batch, table), sc.tables[table].pk;
    DeletesLast(pk, es) && (AllTakeLast(c.final) || OneVersion(pk, es))
  }

  ghost predicate AllFaithful(sc: Schema, cycles: seq<Cycle>, table: string)
    requires table in sc.tables
  {
    forall i :: 0 <= i < |cycles| ==> Faithful(sc, cycles[i], table)
  }

  function AfterCycles(t: Table, cycles: seq<Cycle>, name: string): Table
    requires AllLegal(OpsOn(CyclesOps(cycles), name))
  {
    RunTable(t, OpsOn(CyclesOps(cycles), name))
  }

  lemma ReplayRespectsAlike(pk: seq<string>, cols: set<string>, es: seq<ChangeEvent>, a: Table, b: Table)
    requires Tidy(pk, cols, es) && Alike(pk, a, b)
    ensures Alike(pk, ReplayTable(pk, a, es), ReplayTable(pk, b, es))
  {
    forall k ensures Slice(pk, ReplayTable(pk, a, es), k) == Slice(pk, ReplayTable(pk, b, es), k) {
      hide *;
      SliceOfAlike(pk, a, b, k);
      ReplayAt(pk, cols, a, es, k);
      ReplayAt(pk, cols, b, es, k);
    }
  }

  lemma SliceOfAlike(pk: seq<string>, a: Table, b: Table, k: Key)
    requires Alike(pk, a, b)
    ensures Slice(pk, a, k) == Slice(pk, b, k)
  {
  }

  lemma AlikeTransitive(pk: seq<string>, a: Table, b: Table, c: Table)
    requires Alike(pk, a, b) && Alike(pk, b, c)
    ensures Alike(pk, a, c)
  {
  }

  lemma {:induction false} CycleIsReplay(sc: Schema, cols: set<string>, c: Cycle, table: string, t: Table)
    requires sc.Valid() && ValidCycle(sc, c) && table in sc.tables && Faithful(sc, c, table)
    requires Tidy(sc.tables[table].pk, cols, TableEvents(sc, c.batch, table))
    ensures var name, pk := sc.tables[table].current, sc.tables[table].pk;
            && AllLegal(OpsOn(CycleOps(c), name))
            && Alike(pk, RunTable(t, OpsOn(CycleOps(c), name)), ReplayTable(pk, t, TableEvents(sc, c.batch, table)))
  {
    hide Schema.Valid, ValidAttempts, Tidy, Finished, RunTable, Resolves, TableEvents, Alike, DeletesLast, OneVersion;
    var conf, es := sc.tables[table], TableEvents(sc, c.batch, table);
    var own := OpsOn(c.final, conf.current);
    FailedAttemptsAreAbsorbed(sc, cols, c.batch, c.failed, c.final, table, t);
    FinalOn(sc, c.batch, c.final, table);
    if AllTakeLast(c.final) {
      LastWinsBatchIsReplay(conf, cols, es, t, own);
    } else {
      AnyPickBatchIsReplay(conf, cols, es, t, own);
    }
    AlikeTransitive(conf.pk, RunTable(t, OpsOn(CycleOps(c), conf.current)), RunTable(t, own),
                    ReplayTable(conf.pk, t, es));
  }

  lemma TidyParts(pk: seq<string>, cols: set<string>, a: seq<ChangeEvent>, b: seq<ChangeEvent>)
    requires Tidy(pk, cols, a + b)
    ensures Tidy(pk, cols, a) && Tidy(pk, cols, b)
  {
    var all := a + b;
    forall i | 0 <= i < |a| && HasUpsert(a[i]) ensures TidyRow(pk, cols, UpsertRow(a[i]).at) {
      assert a[i] == all[i];
    }
    forall i | 0 <= i < |b| && HasUpsert(b[i]) ensures TidyRow(pk, cols, UpsertRow(b[i]).at) {
      assert b[i] == all[|a| + i];
    }
  }

  /** Replaying one more batch after tables that are alike. */
  lemma ReplayExtends(pk: seq<string>, cols: set<string>, t: Table, log: seq<ChangeEvent>, es: seq<ChangeEvent>,
                      u: Table, v: Table)
    requires Tidy(pk, cols, es)
    requires Alike(pk, u, ReplayTable(pk, t, log)) && Alike(pk, v, ReplayTable(pk, u, es))
    ensures Alike(pk, v, ReplayTable(pk, t, log + es))
  {
    hide *;
    ReplayRespectsAlike(pk, cols, es, u, ReplayTable(pk, t, log));
    ReplayTableConcat(pk, t, log, es);
    AlikeTransitive(pk, v, ReplayTable(pk, u, es), ReplayTable(pk, ReplayTable(pk, t, log), es));
  }

  /**
   Flush boundaries and failed attempts do not matter: however the log was cut into batches, if
   each batch meets its condition the current table is what replaying the whole log gives.
   */
  lemma {:induction false} RunIsReplay(sc: Schema, cols: set<string>, cycles: seq<Cycle>, table: string, t: Table)
    requires sc.Valid() && ValidCycles(sc, cycles) && table in sc.tables && AllFaithful(sc, cycles, table)
    requires Tidy(sc.tables[table].pk, cols, TableEvents(sc, LogOf(cycles), table))
    ensures var name, pk := sc.tables[table].current, sc.tables[table].pk;
            && AllLegal(OpsOn(CyclesOps(cycles), name))
            && Alike(pk, AfterCycles(t, cycles, name), ReplayTable(pk, t, TableEvents(sc, LogOf(cycles), table)))
  {
    hide Schema.Valid, ValidCycle, Tidy, RunTable, TableEvents, ReplayTable, Alike, Faithful, AllLegal;
    var conf := sc.tables[table];
    CyclesLegal(sc, cycles);
    LegalOn(CyclesOps(cycles), conf.current);
    if cycles == [] {
      NothingReplayed(sc, conf.pk, t, table);
      NothingRan(t);
    } else {
      var init, c := cycles[..|cycles| - 1], cycles[|cycles| - 1];
      var log, es := TableEvents(sc, LogOf(init), table), TableEvents(sc, c.batch, table);
      TableEventsConcat(sc, LogOf(init), c.batch, table);
      TidyParts(conf.pk, cols, log, es);
      RunIsReplay(sc, cols, init, table, t);
      var u := AfterCycles(t, init, conf.current);
      CycleIsReplay(sc, cols, c, table, u);
      OpsOnConcat(CyclesOps(init), CycleOps(c), conf.current);
      RunTableConcat(t, OpsOn(CyclesOps(init), conf.current), OpsOn(CycleOps(c), conf.current));
      ReplayExtends(conf.pk, cols, t, log, es, u, AfterCycles(t, cycles, conf.current));
    }
  }

  lemma NothingReplayed(sc: Schema, pk: seq<string>, t: Table, table: string)
    ensures Alike(pk, t, ReplayTable(pk, t, TableEvents(sc, [], table)))
  {
  }

  /** The same for the whole warehouse: every current table is the replay of the log. */
  lemma {:induction false} RunIsReplayDb(sc: Schema, cols: map<string, set<string>>, cycles: seq<Cycle>, db: Db)
    requires sc.Valid() && ValidCycles(sc, cycles) && cols.Keys == sc.tables.Keys
    requires forall table :: table in sc.tables ==>
               && AllFaithful(sc, cycles, table)
               && Tidy(sc.tables[table].pk, cols[table], TableEvents(sc, LogOf(cycles), table))
    ensures AllLegal(CyclesOps(cycles)) && AllMapped(sc, LogOf(cycles))
    ensures forall table :: table in sc.tables ==>
              SameRows(At(Run(db, CyclesOps(cycles)), sc.tables[table].current),
                       At(ReplayDb(sc, db, LogOf(cycles)), sc.tables[table].current))
  {
    CyclesLegal(sc, cycles);
    forall table | table in sc.tables
      ensures SameRows(At(Run(db, CyclesOps(cycles)), sc.tables[table].current),
                       At(ReplayDb(sc, db, LogOf(cycles)), sc.tables[table].current))
    {
      hide Schema.Valid, ValidCycles, Tidy, RunTable, TableEvents, ReplayTable, Alike, AllFaithful, AllLegal, SameRows;
      var conf := sc.tables[table];
      RunIsReplay(sc, cols[table], cycles, table, At(db, conf.current));
      RunAt(db, CyclesOps(cycles), conf.current);
      ReplayDbAt(sc, db, LogOf(cycles), table);
      AlikeIsSameRows(conf.pk, At(Run(db, CyclesOps(cycles)), conf.current),
                      At(ReplayDb(sc, db, LogOf(cycles)), conf.current));
    }
  }

  /** However one log was cut into batches, the current tables agree. */
  lemma {:induction false} CutsAgree(sc: Schema, cols: set<string>, a: seq<Cycle>, b: seq<Cycle>, table: string,
                                     t: Table)
    requires sc.Valid() && ValidCycles(sc, a) && ValidCycles(sc, b) && table in sc.tables && LogOf(a) == LogOf(b)
    requires AllFaithful(sc, a, table) && AllFaithful(sc, b, table)
    requires Tidy(sc.tables[table].pk, cols, TableEvents(sc, LogOf(a), table))
    ensures var name := sc.tables[table].current;
            && AllLegal(OpsOn(CyclesOps(a), name)) && AllLegal(OpsOn(CyclesOps(b), name))
            && SameRows(AfterCycles(t, a, name), AfterCycles(t, b, name))
  {
    hide *;
    var conf := sc.tables[table];
    RunIsReplay(sc, cols, a, table, t);
    RunIsReplay(sc, cols, b, table, t);
    AlikeIsSameRows(conf.pk, AfterCycles(t, a, conf.current),
                    ReplayTable(conf.pk, t, TableEvents(sc, LogOf(a), table)));
    AlikeIsSameRows(conf.pk, AfterCycles(t, b, conf.current),
                    ReplayTable(conf.pk, t, TableEvents(sc, LogOf(a), table)));
    SameRowsTransitive(AfterCycles(t, a, conf.current), ReplayTable(conf.pk, t, TableEvents(sc, LogOf(a), table)),
                       AfterCycles(t, b, conf.current));
  }

  lemma SameRowsTransitive(a: Table, b: Table, c: Table)
    requires SameRows(a, b) && SameRows(c, b)
    ensures SameRows(a, c)
  {
  }

  /** One last-wins batch on the whole warehouse equals replay exactly when deletes come last. */
  lemma {:induction false} BatchIsReplayDb(sc: Schema, cols: map<string, set<string>>, batch: seq<ChangeEvent>,
                                           final: seq<Done>, db: Db)
    requires sc.Valid() && AllMapped(sc, batch) && Resolves(final, Program(sc, batch)) && AllTakeLast(final)
    requires cols.Keys == sc.tables.Keys
    requires forall table :: table in sc.tables ==>
               Tidy(sc.tables[table].pk, cols[table], TableEvents(sc, batch, table))
    ensures AllLegal(final)
    ensures (forall table :: table in sc.tables ==>
               SameRows(At(Run(db, final), sc.tables[table].current),
                        At(ReplayDb(sc, db, batch), sc.tables[table].current)))
        <==> (forall table :: table in sc.tables ==> DeletesLast(sc.tables[table].pk, TableEvents(sc, batch, table)))
  {
    ResolvedLegal(final, Program(sc, batch));
    forall table | table in sc.tables
      ensures SameRows(At(Run(db, final), sc.tables[table].current),
                       At(ReplayDb(sc, db, batch), sc.tables[table].current))
         <==> DeletesLast(sc.tables[table].pk, TableEvents(sc, batch, table))
    {
      hide Schema.Valid, Tidy, RunTable, TableEvents, ReplayTable, Alike, AllLegal, SameRows, DeletesLast, Resolves,
        Finished;
      var conf := sc.tables[table];
      FinalOn(sc, batch, final, table);
      LastWinsBatchIsReplay(conf, cols[table], TableEvents(sc, batch, table), At(db, conf.current),
                            OpsOn(final, conf.current));
      RunAt(db, final, conf.current);
      ReplayDbAt(sc, db, batch, table);
    }
  }

  // ---- One row per primary key, over whole runs -----------------------------------------------

  lemma FromProgramsConcat(sc: Schema, a: seq<Done>, b: seq<Done>)
    requires FromPrograms(sc, a) && FromPrograms(sc, b)
    ensures FromPrograms(sc, a + b)
  {
    hide CanTake;
  }

  lemma {:induction false} AttemptsFromPrograms(sc: Schema, batch: seq<ChangeEvent>, attempts: seq<Attempt>)
    requires sc.Valid() && AllMapped(sc, batch) && ValidAttempts(sc, batch, attempts)
    ensures FromPrograms(sc, OpsOf(attempts))
  {
    hide Schema.Valid, ValidAttempt, FromPrograms;
    if attempts == [] {
      NothingFromPrograms(sc);
    } else {
      AttemptsFromPrograms(sc, batch, attempts[..|attempts| - 1]);
      AttemptFromProgram(sc, batch, attempts[|attempts| - 1]);
      FromProgramsConcat(sc, OpsOf(attempts[..|attempts| - 1]), attempts[|attempts| - 1].ops);
    }
  }

  lemma NothingFromPrograms(sc: Schema)
    ensures FromPrograms(sc, [])
  {
  }

  lemma FinalIsAttempt(sc: Schema, batch: seq<ChangeEvent>, final: seq<Done>)
    requires AllMapped(sc, batch) && Resolves(final, Program(sc, batch))
    ensures ValidAttempt(sc, batch, Attempt(|batch|, final))
  {
    hide CanTake, Program;
    assert batch[..|batch|] == batch;
    assert Program(sc, batch)[..|final|] == Program(sc, batch);
  }

  lemma {:induction false} CyclesFromPrograms(sc: Schema, cycles: seq<Cycle>)
    requires sc.Valid() && ValidCycles(sc, cycles)
    ensures FromPrograms(sc, CyclesOps(cycles))
  {
    hide Schema.Valid, ValidAttempts, Resolves, FromPrograms, Program;
    if cycles == [] {
      NothingFromPrograms(sc);
    } else {
      var init, c := cycles[..|cycles| - 1], cycles[|cycles| - 1];
      assert ValidCycle(sc, c);
      CyclesFromPrograms(sc, init);
      AttemptsFromPrograms(sc, c.batch, c.failed);
      FinalIsAttempt(sc, c.batch, c.final);
      AttemptFromProgram(sc, c.batch, Attempt(|c.batch|, c.final));
      FromProgramsConcat(sc, OpsOf(c.failed), c.final);
      FromProgramsConcat(sc, CyclesOps(init), CycleOps(c));
    }
  }
}
