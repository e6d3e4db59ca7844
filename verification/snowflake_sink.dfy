/** The sink itself: buffer, flush with retries, and the batch write, statement by statement. */
module Warehousing {
  import opened Values
  import opened Tables
  import opened Statements
  import opened Events
  import opened Columns
  import opened Batches
  import opened Attempts
  import opened Cycles
  import opened Sink

  /**
   The remote warehouse. Its contents are no part of the process, so they are ghost; which rows
   a MERGE's QUALIFY keeps, and whether a failing statement took effect, is left open.
   */
  class Warehouse {
    ghost var db: Db
    /** How many statements, and attempts to connect, have failed so far. */
    ghost var failures: nat

    method Connect() returns (ok: bool)
      modifies this`failures
      ensures failures == old(failures) + if ok then 0 else 1
    {
      ok := *;
      if !ok {
        failures := failures + 1;
      }
    }

    method Execute(call: Call) returns (ok: bool, ghost took: seq<Done>)
      requires Legal(call)
      modifies this
      ensures Part(took, [call]) && Ran(old(db), took, db)
      ensures ok ==> |took| == 1
      ensures failures == old(failures) + if ok then 0 else 1
    {
      ghost var picked: Table := *;
      if call.sql.MergeSql? && !IsPick(call.sql.pk, BoundRows(call), picked) {
        picked := LastWins(call.sql.pk, BoundRows(call));
        LastWinsIsPick(call.sql.pk, BoundRows(call));
      }
      var fate: Fate := *;
      ok := fate.Succeeds?;
      if !ok {
        failures := failures + 1;
      }
      if fate.FailsWithoutEffect? {
        took := [];
      } else {
        took := [Done(call, picked)];
        assert took[..0] == [];
        db := Exec(db, took[0]);
      }
    }
  }

  /** Running `ops` takes the warehouse from `start` to `end`. */
  ghost predicate Ran(start: Db, ops: seq<Done>, end: Db) {
    AllLegal(ops) && end == Run(start, ops)
  }

  // ---- The events of one table, split by kind ------------------------------------------------------

  function Select(es: seq<ChangeEvent>, deletes: bool): seq<ChangeEvent> {
    if es == [] then []
    else Select(es[..|es| - 1], deletes) + (if es[|es| - 1].op.Delete? == deletes then [es[|es| - 1]] else [])
  }

  lemma {:induction false} SelectKeepsCalls(conf: TableConf, es: seq<ChangeEvent>)
    ensures UpsertDicts(Select(es, false)) == UpsertDicts(es)
    ensures DeleteKeys(conf.pk, Select(es, true)) == DeleteKeys(conf.pk, es)
  {
    hide UpsertRow, DeleteKeyOf;
    if es == [] {
    } else {
      var init, e := es[..|es| - 1], es[|es| - 1];
      SelectKeepsCalls(conf, init);
      var up, del := Select(init, false), Select(init, true);
      assert (up + [e])[..|up|] == up && (del + [e])[..|del|] == del;
      assert up + [] == up && del + [] == del;
    }
  }

  /** Running one more part of a program. */
  lemma RunMore(start: Db, took: seq<Done>, calls: seq<Call>, mid: Db, more: seq<Done>, rest: seq<Call>, end: Db)
    requires Part(took, calls) && |took| == |calls| && Part(more, rest)
    requires Ran(start, took, mid) && Ran(mid, more, end)
    ensures Part(took + more, calls + rest) && Ran(start, took + more, end)
  {
    hide Part, Resolves, Run, Legal;
    PartAppends(took, calls, more, rest);
    RunConcat(start, took, more);
  }

  method CollectUpserts(upserts: seq<ChangeEvent>) returns (rows: seq<Dict>)
    requires forall i :: 0 <= i < |upserts| ==> !upserts[i].op.Delete?
    ensures rows == UpsertDicts(upserts)
  {
    rows := [];
    for i := 0 to |upserts|
      invariant rows == UpsertDicts(upserts[..i])
    {
      var e := upserts[i];
      assert upserts[..i + 1][..i] == upserts[..i];
      if e.after.Some? && e.after.value.keys != [] {
        var row := BuildSfRow(e.after.value);
        rows := rows + [row];
      }
    }
    assert upserts[..|upserts|] == upserts;
  }

  method CollectHistory(es: seq<ChangeEvent>) returns (rows: seq<Dict>)
    ensures rows == HistoryDicts(es)
  {
    rows := [];
    for i := 0 to |es|
      invariant rows == HistoryDicts(es[..i])
    {
      var e := es[i];
      assert es[..i + 1][..i] == es[..i];
      var data := if !e.op.Delete? then e.after else e.before;
      if data.Some? {
        var row := BuildSfRow(data.value);
        row := Put(row, "_CDC_OP", Text(OpLabel(e.op)));
        row := Put(row, "_CDC_LSN", Number(e.lsn));
        row := Put(row, "_CDC_TS", Instant(e.tsUs));
        rows := rows + [row];
      }
    }
    assert es[..|es|] == es;
  }

  class SnowflakeSink {
    const cfg: Config
    const warehouse: Warehouse
    var buffer: seq<ChangeEvent>
    var lastFlush: real
    var connected: bool

    /** The warehouse when the sink was made, and what the sink has done to it since. */
    ghost var base: Db
    ghost var state: SinkState

    ghost predicate Valid()
      reads this, warehouse
    {
      && cfg.Ok()
      && SinkOk(cfg, state)
      && state.buffer == buffer
      && Ran(base, StateOps(state), warehouse.db)
    }

    constructor (cfg: Config, warehouse: Warehouse, clock: real)
      requires cfg.Ok()
      ensures Valid() && fresh(this) && lastFlush == clock
      ensures this.cfg == cfg && this.warehouse == warehouse
      ensures state == NEW_SINK && base == warehouse.db
    {
      this.cfg := cfg;
      this.warehouse := warehouse;
      this.buffer := [];
      this.lastFlush := clock;
      this.connected := false;
      this.base := warehouse.db;
      this.state := NEW_SINK;
    }

    // ---- MERGE, DELETE and history INSERT of one table -------------------------------------------

    method MergeCurrent(conf: TableConf, upserts: seq<ChangeEvent>) returns (ok: bool, ghost took: seq<Done>)
      requires forall i :: 0 <= i < |upserts| ==> !upserts[i].op.Delete?
      modifies warehouse
      ensures Part(took, MergeCalls(conf, upserts))
      ensures Ran(old(warehouse.db), took, warehouse.db)
      ensures ok ==> |took| == |MergeCalls(conf, upserts)|
      ensures warehouse.failures == old(warehouse.failures) + if ok then 0 else 1
    {
      var rows := CollectUpserts(upserts);
      if rows == [] {
        return true, [];
      }
      var cols := rows[0].keys;
      BindExact(Rows(rows), cols);
      ok, took := warehouse.Execute(
        Call(MergeSql(conf.current, conf.pk, Template(cols, |rows|)), Flatten(Rows(rows), cols)));
    }

    method DeleteCurrent(conf: TableConf, deletes: seq<ChangeEvent>) returns (ok: bool, ghost took: seq<Done>)
      requires forall i :: 0 <= i < |deletes| ==> deletes[i].op.Delete?
      modifies warehouse
      ensures Part(took, DeleteCalls(conf, deletes))
      ensures Ran(old(warehouse.db), took, warehouse.db)
      ensures ok ==> |took| == |DeleteCalls(conf, deletes)|
      ensures warehouse.failures == old(warehouse.failures) + if ok then 0 else 1
    {
      took := [];
      for i := 0 to |deletes|
        invariant Part(took, DeleteCalls(conf, deletes[..i]))
        invariant |took| == |DeleteCalls(conf, deletes[..i])| && warehouse.failures == old(warehouse.failures)
        invariant Ran(old(warehouse.db), took, warehouse.db)
      {
        var e := deletes[i];
        var row := BuildSfRow(if e.before.Some? then e.before.value else EMPTY_DICT);
        var call := Call(DeleteSql(conf.current, conf.pk), KeyOf(conf.pk, row.at));
        DeleteCallsStep(conf, deletes, i, call);
        ghost var mid, more: seq<Done> := warehouse.db, [];
        ok, more := warehouse.Execute(call);
        RunMore(old(warehouse.db), took, DeleteCalls(conf, deletes[..i]), mid, more, [call], warehouse.db);
        took := took + more;
        if !ok {
          PartOfMore(took, DeleteCalls(conf, deletes[..i + 1]), DeleteCalls(conf, deletes));
          return;
        }
      }
      assert deletes[..|deletes|] == deletes;
      ok := true;
    }

    method InsertHistory(conf: TableConf, es: seq<ChangeEvent>) returns (ok: bool, ghost took: seq<Done>)
      modifies warehouse
      ensures Part(took, HistoryCalls(conf, es))
      ensures Ran(old(warehouse.db), took, warehouse.db)
      ensures ok ==> |took| == |HistoryCalls(conf, es)|
      ensures warehouse.failures == old(warehouse.failures) + if ok then 0 else 1
    {
      var rows := CollectHistory(es);
      if rows == [] {
        return true, [];
      }
      var cols := rows[0].keys;
      BindExact(Rows(rows), cols);
      ok, took := warehouse.Execute(Call(InsertSql(conf.history, Template(cols, |rows|)), Flatten(Rows(rows), cols)));
    }

    // ---- One batch -----------------------------------------------------------------------------------

    method WriteTable(conf: TableConf, es: seq<ChangeEvent>) returns (ok: bool, ghost took: seq<Done>)
      modifies warehouse
      ensures Part(took, TableCalls(conf, es))
      ensures Ran(old(warehouse.db), took, warehouse.db)
      ensures ok ==> |took| == |TableCalls(conf, es)|
      ensures warehouse.failures == old(warehouse.failures) + if ok then 0 else 1
    {
      ghost var start := warehouse.db;
      var upserts, deletes := SelectEvents(es);
      SelectKeepsCalls(conf, es);
      ok, took := MergeCurrent(conf, upserts);
      if !ok {
        PartExtends(took, MergeCalls(conf, es), DeleteCalls(conf, es));
        PartExtends(took, CurrentCalls(conf, es), HistoryCalls(conf, es));
        return;
      }
      ghost var mid, more: seq<Done> := warehouse.db, [];
      ok, more := DeleteCurrent(conf, deletes);
      RunMore(start, took, MergeCalls(conf, es), mid, more, DeleteCalls(conf, es), warehouse.db);
      took := took + more;
      if !ok {
        PartExtends(took, CurrentCalls(conf, es), HistoryCalls(conf, es));
        return;
      }
      mid := warehouse.db;
      ok, more := InsertHistory(conf, es);
      RunMore(start, took, CurrentCalls(conf, es), mid, more, HistoryCalls(conf, es), warehouse.db);
      took := took + more;
    }

    method GroupByTable(events: seq<ChangeEvent>) returns (order: seq<string>, byTable: map<string, seq<ChangeEvent>>)
      ensures order == TableOrder(cfg.schema, events)
      ensures forall t :: t in order <==> t in byTable
      ensures forall t :: t in byTable ==> byTable[t] == TableEvents(cfg.schema, events, t)
    {
      order, byTable := [], map[];
      for i := 0 to |events|
        invariant order == TableOrder(cfg.schema, events[..i])
        invariant forall t :: t in order <==> t in byTable
        invariant forall t :: t in byTable ==> byTable[t] == TableEvents(cfg.schema, events[..i], t)
      {
        var e, table := events[i], cfg.schema.Normalize(events[i].table);
        assert events[..i + 1][..i] == events[..i];
        OrderHas(cfg.schema, events[..i], table);
        if table !in byTable {
          order := order + [table];
          byTable := byTable[table := []];
        }
        byTable := byTable[table := byTable[table] + [e]];
      }
      assert events[..|events|] == events;
    }

    /** The loop over the tables of a batch. */
    method WriteTables(order: seq<string>, byTable: map<string, seq<ChangeEvent>>, events: seq<ChangeEvent>)
        returns (ok: bool, ghost took: seq<Done>)
      requires NamesMapped(cfg.schema, order)
      requires forall i :: 0 <= i < |order| ==>
                 order[i] in byTable && byTable[order[i]] == TableEvents(cfg.schema, events, order[i])
      modifies warehouse
      ensures Part(took, CallsFor(cfg.schema, order, events))
      ensures Ran(old(warehouse.db), took, warehouse.db)
      ensures ok ==> |took| == |CallsFor(cfg.schema, order, events)|
      ensures warehouse.failures == old(warehouse.failures) + if ok then 0 else 1
    {
      hide CallsFor, TableCalls, TableEvents, Part, Ran, NamesMapped;
      took := [];
      NoTables(cfg.schema, events, warehouse.db);
      assert order[..0] == [];
      for i := 0 to |order|
        invariant NamesMapped(cfg.schema, order[..i])
        invariant Part(took, CallsFor(cfg.schema, order[..i], events))
        invariant |took| == |CallsFor(cfg.schema, order[..i], events)| && warehouse.failures == old(warehouse.failures)
        invariant Ran(old(warehouse.db), took, warehouse.db)
      {
        var table := order[i];
        OrderMember(cfg.schema, order, i);
        var conf := cfg.schema.tables[table];
        CallsForStep(cfg.schema, order, events, i);
        ghost var mid, more: seq<Done> := warehouse.db, [];
        ok, more := WriteTable(conf, byTable[table]);
        RunMore(old(warehouse.db), took, CallsFor(cfg.schema, order[..i], events), mid,
                more, TableCalls(conf, byTable[table]), warehouse.db);
        took := took + more;
        if !ok {
          PartOfMore(took, CallsFor(cfg.schema, order[..i + 1], events), CallsFor(cfg.schema, order, events));
          return;
        }
      }
      assert order[..|order|] == order;
      ok := true;
    }

    method WriteBatch(events: seq<ChangeEvent>) returns (ok: bool, ghost took: seq<Done>)
      requires AllMapped(cfg.schema, events)
      modifies warehouse, this`connected
      ensures Part(took, Program(cfg.schema, events))
      ensures Ran(old(warehouse.db), took, warehouse.db)
      ensures ok ==> |took| == |Program(cfg.schema, events)|
      ensures warehouse.failures == old(warehouse.failures) + if ok then 0 else 1
    {
      hide CallsFor, TableEvents, TableOrder, Part, Ran, NamesMapped, Schema.Normalize, Run;
      took := [];
      if !connected {
        connected := warehouse.Connect();
        if !connected {
          NoneTaken(Program(cfg.schema, events), warehouse.db);
          return false, [];
        }
      }
      var order, byTable := GroupByTable(events);
      OrderMapped(cfg.schema, events);
      ok, took := WriteTables(order, byTable, events);
    }

    // ---- Flush and publish ---------------------------------------------------------------------------

    /**
     The retry loop of a flush: `failed` are its stopped attempts, `final` the one that completed.
     Without any attempt to make it falls through, as if the batch had been written.
     */
    method WriteWithRetries(batch: seq<ChangeEvent>)
        returns (done: bool, ghost failed: seq<Attempt>, ghost final: seq<Done>, ghost sleeps: seq<real>)
      requires cfg.retryBase >= 0.0 && AllMapped(cfg.schema, batch)
      modifies warehouse, this`connected
      ensures ValidAttempts(cfg.schema, batch, failed)
      ensures Ran(old(warehouse.db), OpsOf(failed) + final, warehouse.db)
      ensures cfg.maxRetries >= 1 ==>
                if done then Resolves(final, Program(cfg.schema, batch)) && |failed| <= cfg.maxRetries - 1
                else final == [] && |failed| == cfg.maxRetries
      ensures cfg.maxRetries >= 1 ==> |sleeps| == if done then |failed| else cfg.maxRetries - 1
      ensures Paced(sleeps, cfg.retryBase) && sleeps == Waits(cfg.retryBase, |sleeps|)
      ensures cfg.maxRetries <= 0 ==> done && failed == [] && final == [] && warehouse.db == old(warehouse.db)
      ensures warehouse.failures == old(warehouse.failures) + |failed|
    {
      hide Program, Part, Resolves, Ran, ValidAttempts, OpsOf, Waits, Paced, AllMapped;
      failed, final, sleeps := [], [], [];
      var attempt := 1;
      NoAttempts(cfg.schema, batch, warehouse.db);
      NoWaits(cfg.retryBase);
      while attempt <= cfg.maxRetries
        invariant 1 <= attempt && |failed| == attempt - 1 && final == []
        invariant warehouse.failures == old(warehouse.failures) + |failed|
        invariant attempt <= cfg.maxRetries || (attempt == 1 && warehouse.db == old(warehouse.db))
        invariant ValidAttempts(cfg.schema, batch, failed)
        invariant Ran(old(warehouse.db), OpsOf(failed), warehouse.db)
        invariant |sleeps| == attempt - 1 && sleeps == Waits(cfg.retryBase, attempt - 1) && Paced(sleeps, cfg.retryBase)
      {
        var ok;
        ghost var mid, took: seq<Done> := warehouse.db, [];
        ok, took := WriteBatch(batch);
        AttemptRan(cfg.schema, old(warehouse.db), batch, failed, mid, took, warehouse.db);
        if ok {
          WholePart(took, Program(cfg.schema, batch));
          final := took;
          return true, failed, final, sleeps;
        }
        failed := failed + [Attempt(|batch|, took)];
        if attempt == cfg.maxRetries {
          assert OpsOf(failed) + [] == OpsOf(failed);
          return false, failed, final, sleeps;
        }
        var wait := Wait(cfg.retryBase, attempt);
        sleeps := sleeps + [wait];
        NextWait(cfg.retryBase, attempt);
        connected := false;
        attempt := attempt + 1;
      }
      assert OpsOf(failed) + [] == OpsOf(failed);
      done := true;
    }

    /** Reads the clock when it has confirmed a batch, or found none: at `clock`. */
    method Flush(clock: real) returns (r: Outcome<Option<nat>>, ghost sleeps: seq<real>)
      requires Valid()
      modifies this, warehouse
      ensures Valid() && base == old(base)
      ensures r.Returned? ==> Flushed(cfg, old(state), state) && lastFlush == clock
      ensures r.Returned? ==> r.value == if old(buffer) == [] then None else Some(Watermark(old(buffer)))
      ensures r.Raised? ==> GaveUp(cfg, old(state), state) && lastFlush == old(lastFlush)
      ensures Paced(sleeps, cfg.retryBase) && SleptWithin(cfg, sleeps)
      ensures old(buffer) == [] ==> sleeps == []
      ensures r.Raised? ==> |sleeps| == cfg.maxRetries - 1
      ensures r.Returned? && old(buffer) != [] ==> |sleeps| == StoppedIn(old(state), state)
      ensures warehouse.failures == old(warehouse.failures) + if r.Raised? then cfg.maxRetries else |sleeps|
    {
      hide SinkOk, Ran, Flushed, GaveUp, SleptWithin, Paced, Waits, Resolves, Program, Watermark, CyclesOps, OpsOf,
        Schema.Valid;
      sleeps := [];
      if buffer == [] {
        lastFlush := clock;
        EmptyFlush(cfg, state);
        return Returned(None), sleeps;
      }
      ghost var before := state;
      var batch := buffer;
      var done;
      ghost var failed: seq<Attempt>, final: seq<Done>;
      SinkParts(cfg, state);
      done, failed, final, sleeps := WriteWithRetries(batch);
      SleepsFit(cfg, |sleeps|);
      if !done {
        state := before.(pending := before.pending + failed);
        FlushGaveUp(cfg, base, before, old(warehouse.db), failed, warehouse.db);
        return Raised, sleeps;
      }
      var maxLsn := MaxLsn(batch);
      buffer := [];
      lastFlush := clock;
      state := Confirmed(before, failed, final);
      FlushConfirmed(cfg, base, before, old(warehouse.db), failed, final, warehouse.db);
      r := Returned(Some(maxLsn));
    }

    /**
     Reads the clock at `clock` and, if it then flushes exactly because the batch is full or the
     interval is over, once more at `later`.
     */
    method Publish(e: ChangeEvent, clock: real, later: real) returns (r: Outcome<Option<nat>>)
      requires Valid()
      modifies this, warehouse
      ensures Valid() && base == old(base)
      ensures r.Returned? ==> Published(cfg, old(state), e, state)
      ensures r.Raised? ==> PublishRaised(cfg, old(state), e, state)
      ensures var full := |old(buffer)| + 1 >= cfg.batchSize || clock - old(lastFlush) >= cfg.flushInterval;
              && (IsMapped(cfg, e) ==> (state == Appended(cfg, old(state), e) <==> !full))
              && lastFlush == (if IsMapped(cfg, e) && full && r.Returned? then later else old(lastFlush))
              && (r.Returned? ==> r.value == if IsMapped(cfg, e) && full
                                             then Some(Watermark(old(buffer) + [Normalized(cfg, e)])) else None)
      ensures r.Raised? ==> warehouse.failures == old(warehouse.failures) + cfg.maxRetries
    {
      hide SinkOk, Ran, Flushed, GaveUp, StateOps, SleptWithin, Paced;
      if cfg.schema.Normalize(e.table) !in cfg.schema.tables {
        return Returned(None);
      }
      ghost var before := state;
      buffer := buffer + [e.(table := cfg.schema.Normalize(e.table))];
      AppendKeepsOk(cfg, before, e);
      var elapsed := clock - lastFlush;
      if |buffer| >= cfg.batchSize || elapsed >= cfg.flushInterval {
        state := Struck(cfg, before, e);
        ghost var sleeps: seq<real>;
        r, sleeps := Flush(later);
        StruckFlush(cfg, before, e, state);
      } else {
        state := Appended(cfg, before, e);
        r := Returned(None);
      }
    }
  }

  /** How many attempts of the flush that led from `s` to `s'` stopped. */
  function StoppedIn(s: SinkState, s': SinkState): int {
    if |s'.cycles| > |s.cycles| then |s'.cycles[|s.cycles|].failed| - |s.pending| else 0
  }

  /** The state in which a publish flushes: if the flush raises, that publish has raised. */
  function Struck(cfg: Config, s: SinkState, e: ChangeEvent): SinkState {
    Appended(cfg, s, e).(strikes := s.strikes + 1)
  }

  lemma AppendKeepsOk(cfg: Config, s: SinkState, e: ChangeEvent)
    requires cfg.Ok() && SinkOk(cfg, s) && IsMapped(cfg, e)
    ensures SinkOk(cfg, Struck(cfg, s, e))
    ensures |Appended(cfg, s, e).buffer| < cfg.batchSize ==> SinkOk(cfg, Appended(cfg, s, e))
    ensures StateOps(Struck(cfg, s, e)) == StateOps(Appended(cfg, s, e)) == StateOps(s)
    ensures Struck(cfg, s, e).buffer == Appended(cfg, s, e).buffer == s.buffer + [Normalized(cfg, e)]
  {
    hide Config.Ok, ValidAttempts, ValidCycles, IsMapped, Normalized, AllMapped;
    AppendKeepsAttempts(cfg, s, e);
  }

  lemma StruckFlush(cfg: Config, s: SinkState, e: ChangeEvent, s': SinkState)
    requires IsMapped(cfg, e)
    ensures Flushed(cfg, Struck(cfg, s, e), s') ==> Published(cfg, s, e, s')
    ensures GaveUp(cfg, Struck(cfg, s, e), s') ==> PublishRaised(cfg, s, e, s')
    ensures Flushed(cfg, Struck(cfg, s, e), s') || GaveUp(cfg, Struck(cfg, s, e), s') ==> s' != Appended(cfg, s, e)
  {
    hide ValidCycle, ValidAttempts, AllMapped, Normalized;
  }

  method SelectEvents(es: seq<ChangeEvent>) returns (upserts: seq<ChangeEvent>, deletes: seq<ChangeEvent>)
    ensures upserts == Select(es, false) && deletes == Select(es, true)
    ensures forall i :: 0 <= i < |upserts| ==> !upserts[i].op.Delete?
    ensures forall i :: 0 <= i < |deletes| ==> deletes[i].op.Delete?
  {
    upserts, deletes := [], [];
    for i := 0 to |es|
      invariant upserts == Select(es[..i], false) && deletes == Select(es[..i], true)
      invariant forall i :: 0 <= i < |upserts| ==> !upserts[i].op.Delete?
      invariant forall i :: 0 <= i < |deletes| ==> deletes[i].op.Delete?
    {
      assert es[..i + 1][..i] == es[..i];
      if es[i].op.Delete? {
        deletes := deletes + [es[i]];
      } else {
        upserts := upserts + [es[i]];
      }
    }
    assert es[..|es|] == es;
  }

  method MaxLsn(batch: seq<ChangeEvent>) returns (maxLsn: nat)
    requires batch != []
    ensures maxLsn == Watermark(batch)
  {
    maxLsn := if batch[0].commitLsn != 0 then batch[0].commitLsn else batch[0].lsn;
    for i := 1 to |batch|
      invariant maxLsn == Watermark(batch[..i])
    {
      assert batch[..i + 1][..i] == batch[..i];
      var lsn := if batch[i].commitLsn != 0 then batch[i].commitLsn else batch[i].lsn;
      if maxLsn < lsn {
        maxLsn := lsn;
      }
    }
    assert batch[..|batch|] == batch;
  }

  lemma PartOfMore(took: seq<Done>, calls: seq<Call>, all: seq<Call>)
    requires Part(took, calls) && calls <= all
    ensures Part(took, all)
  {
    assert all == calls + all[|calls|..];
    PartExtends(took, calls, all[|calls|..]);
  }

  lemma NoneTaken(calls: seq<Call>, db: Db)
    ensures Part([], calls) && Ran(db, [], db)
  {
  }

  lemma NoTables(sc: Schema, events: seq<ChangeEvent>, db: Db)
    ensures NamesMapped(sc, []) && CallsFor(sc, [], events) == [] && Part([], []) && Ran(db, [], db)
  {
  }

  lemma OrderMember(sc: Schema, order: seq<string>, i: nat)
    requires NamesMapped(sc, order) && i < |order|
    ensures order[i] in sc.tables
  {
  }

  lemma CallsForStep(sc: Schema, order: seq<string>, events: seq<ChangeEvent>, i: nat)
    requires NamesMapped(sc, order) && i < |order|
    ensures NamesMapped(sc, order[..i]) && NamesMapped(sc, order[..i + 1])
    ensures CallsFor(sc, order[..i + 1], events)
         == CallsFor(sc, order[..i], events) + TableCalls(sc.tables[order[i]], TableEvents(sc, events, order[i]))
    ensures CallsFor(sc, order[..i + 1], events) <= CallsFor(sc, order, events)
  {
    assert order[..i + 1][..i] == order[..i];
    CallsForPrefix(sc, order, events, i + 1);
  }

  lemma {:induction false} CallsForPrefix(sc: Schema, order: seq<string>, events: seq<ChangeEvent>, n: nat)
    requires NamesMapped(sc, order) && n <= |order|
    ensures NamesMapped(sc, order[..n])
    ensures CallsFor(sc, order[..n], events) <= CallsFor(sc, order, events)
  {
    hide TableCalls, TableEvents;
    if n == |order| {
      assert order[..n] == order;
    } else {
      assert order[..|order| - 1][..n] == order[..n];
      CallsForPrefix(sc, order[..|order| - 1], events, n);
    }
  }

  /** One more attempt, stopped or complete. */
  lemma AttemptRan(sc: Schema, start: Db, batch: seq<ChangeEvent>, failed: seq<Attempt>, mid: Db, took: seq<Done>,
                   end: Db)
    requires AllMapped(sc, batch) && ValidAttempts(sc, batch, failed) && Part(took, Program(sc, batch))
    requires Ran(start, OpsOf(failed), mid) && Ran(mid, took, end)
    ensures ValidAttempts(sc, batch, failed + [Attempt(|batch|, took)])
    ensures OpsOf(failed + [Attempt(|batch|, took)]) == OpsOf(failed) + took
    ensures Ran(start, OpsOf(failed) + took, end)
  {
    hide Program, Legal, Part;
    var next := failed + [Attempt(|batch|, took)];
    assert batch[..|batch|] == batch;
    assert next[..|failed|] == failed;
    RunConcat(start, OpsOf(failed), took);
  }

  lemma {:induction false} OpsOfConcat(a: seq<Attempt>, b: seq<Attempt>)
    ensures OpsOf(a + b) == OpsOf(a) + OpsOf(b)
  {
    if b == [] {
      assert a + b == a;
    } else {
      assert (a + b)[..|a + b| - 1] == a + b[..|b| - 1];
      OpsOfConcat(a, b[..|b| - 1]);
    }
  }

  lemma RanConcat(start: Db, a: seq<Done>, mid: Db, b: seq<Done>, end: Db)
    requires Ran(start, a, mid) && Ran(mid, b, end)
    ensures Ran(start, a + b, end)
  {
    hide Legal, Run;
    RunConcat(start, a, b);
  }

  lemma NoAttempts(sc: Schema, batch: seq<ChangeEvent>, db: Db)
    requires AllMapped(sc, batch)
    ensures ValidAttempts(sc, batch, []) && Ran(db, OpsOf([]), db)
  {
  }

  lemma NoWaits(retryBase: real)
    ensures Waits(retryBase, 0) == [] && Paced([], retryBase)
  {
  }

  lemma NextWait(retryBase: real, n: nat)
    requires retryBase >= 0.0 && n >= 1
    ensures Waits(retryBase, n - 1) + [Wait(retryBase, n)] == Waits(retryBase, n)
    ensures Paced(Waits(retryBase, n), retryBase)
  {
    WaitsArePaced(retryBase, n);
  }

  /** One flush sleeps at most between all its attempts, a minute each. */
  ghost predicate SleptWithin(cfg: Config, sleeps: seq<real>) {
    && cfg.maxRetries >= 1 && |sleeps| <= cfg.maxRetries - 1
    && 0.0 <= Total(sleeps) <= 60.0 * (cfg.maxRetries - 1) as real
    && Total(sleeps) <= Doubled(cfg.retryBase, cfg.maxRetries - 1) - cfg.retryBase
  }

  lemma SleepsFit(cfg: Config, n: nat)
    requires cfg.Ok() && n <= cfg.maxRetries - 1
    ensures SleptWithin(cfg, Waits(cfg.retryBase, n))
  {
    WaitsArePaced(cfg.retryBase, n);
    SleptGrows(cfg.retryBase, n, cfg.maxRetries - 1);
    SleptIsBounded(cfg.retryBase, cfg.maxRetries - 1);
    hide Slept, Doubled, Waits, Total, Config.Ok;
  }

  lemma EmptyFlush(cfg: Config, s: SinkState)
    requires cfg.Ok()
    ensures s.buffer == [] ==> Flushed(cfg, s, s)
    ensures SleptWithin(cfg, []) && Paced([], cfg.retryBase)
  {
    SleepsFit(cfg, 0);
  }

  lemma SinkParts(cfg: Config, s: SinkState)
    requires SinkOk(cfg, s)
    ensures AllMapped(cfg.schema, s.buffer)
  {
  }

  lemma MoreAttempts(sc: Schema, batch: seq<ChangeEvent>, a: seq<Attempt>, b: seq<Attempt>)
    requires AllMapped(sc, batch) && ValidAttempts(sc, batch, a) && ValidAttempts(sc, batch, b)
    ensures ValidAttempts(sc, batch, a + b)
  {
    hide ValidAttempt;
  }

  /** More stopped attempts add their statements. */
  lemma PendingOps(s: SinkState, failed: seq<Attempt>)
    ensures StateOps(s.(pending := s.pending + failed)) == StateOps(s) + (OpsOf(failed) + [])
  {
    hide CyclesOps, OpsOf;
    OpsOfConcat(s.pending, failed);
    assert OpsOf(failed) + [] == OpsOf(failed);
    Associative(CyclesOps(s.cycles), OpsOf(s.pending), OpsOf(failed));
  }

  lemma FlushGaveUp(cfg: Config, base: Db, s: SinkState, mid: Db, failed: seq<Attempt>, end: Db)
    requires cfg.Ok() && SinkOk(cfg, s) && s.buffer != [] && Ran(base, StateOps(s), mid)
    requires ValidAttempts(cfg.schema, s.buffer, failed) && |failed| == cfg.maxRetries
    requires Ran(mid, OpsOf(failed) + [], end)
    ensures var s' := s.(pending := s.pending + failed);
            GaveUp(cfg, s, s') && SinkOk(cfg, s') && Ran(base, StateOps(s'), end)
  {
    hide ValidAttempts, ValidCycles, Schema.Valid, Ran, StateOps, OpsOf;
    MoreAttempts(cfg.schema, s.buffer, s.pending, failed);
    PendingOps(s, failed);
    RanConcat(base, StateOps(s), mid, OpsOf(failed) + [], end);
  }

  /** The state after a flush that completed. */
  function Confirmed(s: SinkState, failed: seq<Attempt>, final: seq<Done>): SinkState {
    SinkState([], [], s.cycles + [Cycle(s.buffer, s.pending + failed, final)], 0)
  }

  lemma ConfirmedOps(s: SinkState, failed: seq<Attempt>, final: seq<Done>)
    ensures StateOps(Confirmed(s, failed, final)) == StateOps(s) + (OpsOf(failed) + final)
  {
    hide OpsOf;
    var c := Cycle(s.buffer, s.pending + failed, final);
    assert (s.cycles + [c])[..|s.cycles|] == s.cycles;
    assert CyclesOps(s.cycles + [c]) == CyclesOps(s.cycles) + CycleOps(c);
    hide CyclesOps;
    OpsOfConcat(s.pending, failed);
    NoPending();
    Associative(OpsOf(s.pending), OpsOf(failed), final);
    Associative(CyclesOps(s.cycles), OpsOf(s.pending), OpsOf(failed) + final);
    assert CyclesOps(s.cycles + [c]) + [] == CyclesOps(s.cycles + [c]);
  }

  lemma NoPending()
    ensures OpsOf([]) == []
  {
  }

  lemma ConfirmedIsFlushed(cfg: Config, s: SinkState, failed: seq<Attempt>, final: seq<Done>)
    requires cfg.Ok() && SinkOk(cfg, s) && s.buffer != []
    requires ValidAttempts(cfg.schema, s.buffer, failed) && Resolves(final, Program(cfg.schema, s.buffer))
    ensures Flushed(cfg, s, Confirmed(s, failed, final))
  {
    hide ValidAttempts, ValidCycles, Schema.Valid, Program, Resolves;
    MoreAttempts(cfg.schema, s.buffer, s.pending, failed);
  }

  lemma FlushConfirmed(cfg: Config, base: Db, s: SinkState, mid: Db, failed: seq<Attempt>, final: seq<Done>, end: Db)
    requires cfg.Ok() && SinkOk(cfg, s) && s.buffer != [] && Ran(base, StateOps(s), mid)
    requires ValidAttempts(cfg.schema, s.buffer, failed) && Resolves(final, Program(cfg.schema, s.buffer))
    requires Ran(mid, OpsOf(failed) + final, end)
    ensures var s' := Confirmed(s, failed, final);
            Flushed(cfg, s, s') && SinkOk(cfg, s') && Ran(base, StateOps(s'), end)
  {
    hide *;
    ConfirmedIsFlushed(cfg, s, failed, final);
    FlushedKeepsOk(cfg, s, Confirmed(s, failed, final));
    ConfirmedOps(s, failed, final);
    RanConcat(base, StateOps(s), mid, OpsOf(failed) + final, end);
  }

  lemma DeleteCallsStep(conf: TableConf, deletes: seq<ChangeEvent>, i: nat, call: Call)
    requires i < |deletes| && deletes[i].op.Delete?
    requires call == Call(DeleteSql(conf.current, conf.pk), DeleteKeyOf(conf.pk, deletes[i]))
    ensures Legal(call) && DeleteCalls(conf, deletes[..i + 1]) == DeleteCalls(conf, deletes[..i]) + [call]
    ensures DeleteCalls(conf, deletes[..i + 1]) <= DeleteCalls(conf, deletes)
  {
    assert deletes[..i + 1][..i] == deletes[..i];
    assert deletes == deletes[..i + 1] + deletes[i + 1..];
    DeleteKeysConcat(conf.pk, deletes[..i + 1], deletes[i + 1..]);
  }
}
