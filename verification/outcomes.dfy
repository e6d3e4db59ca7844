/**
 What stopped attempts on a batch can make of a key. `Attempts` shows that it is one of the
 outcomes of `Drifted`; here each of those outcomes is produced by some attempts.
 */
module Outcomes {
  import opened Values
  import opened Tables
  import opened Statements
  import opened Events
  import opened Batches
  import opened Replay
  import opened Attempts

  // ---- Every statement of a program can be taken -----------------------------------------------

  ghost predicate CallsLegal(calls: seq<Call>) { forall i :: 0 <= i < |calls| ==> Legal(calls[i]) }

  lemma TableCallsLegal(conf: TableConf, es: seq<ChangeEvent>)
    ensures CallsLegal(TableCalls(conf, es))
  {
    hide Legal, CurrentCalls, HistoryCalls;
    var ops := SomeRunFinishes(conf, es);
    var current, history := CurrentCalls(conf, es), HistoryCalls(conf, es);
    forall i | 0 <= i < |current| ensures Legal(current[i]) {
      assert ops[i].call == current[i] && CanTake(ops[i]);
    }
    HistoryCallsLegal(conf, es);
  }

  lemma HistoryCallsLegal(conf: TableConf, es: seq<ChangeEvent>)
    ensures CallsLegal(HistoryCalls(conf, es))
  {
    hide Flatten, Template, Placeholders, Bind, Projected, Rows, HistoryDicts;
    var dicts := HistoryDicts(es);
    if dicts != [] {
      assert |Rows(dicts)| == |dicts| by { RowsCount(dicts); }
      BindExact(Rows(dicts), dicts[0].keys);
    }
  }

  lemma RowsCount(dicts: seq<Dict>)
    ensures |Rows(dicts)| == |dicts|
  {
  }

  lemma {:induction false} CallsForLegal(sc: Schema, tables: seq<string>, events: seq<ChangeEvent>)
    requires NamesMapped(sc, tables)
    ensures CallsLegal(CallsFor(sc, tables, events))
  {
    hide Legal, TableCalls, TableEvents;
    if tables != [] {
      var t := tables[|tables| - 1];
      CallsForLegal(sc, tables[..|tables| - 1], events);
      TableCallsLegal(sc.tables[t], TableEvents(sc, events, t));
    }
  }

  /** The statement with the given rows picked if it is on `name`, else with the intended pick. */
  function Take(call: Call, name: string, picked: Table): Done {
    if call.sql.table == name then Done(call, picked)
    else if call.sql.MergeSql? && Legal(call) then Done(call, LastWins(call.sql.pk, BoundRows(call)))
    else Done(call, [])
  }

  function TakeAll(calls: seq<Call>, name: string, picked: Table): seq<Done> {
    if calls == [] then []
    else TakeAll(calls[..|calls| - 1], name, picked) + [Take(calls[|calls| - 1], name, picked)]
  }

  ghost predicate CanPick(calls: seq<Call>, name: string, picked: Table) {
    forall i :: 0 <= i < |calls| && calls[i].sql.table == name ==> CanTake(Done(calls[i], picked))
  }

  lemma {:induction false} CanPickOn(calls: seq<Call>, name: string, picked: Table)
    requires forall i :: 0 <= i < |CallsOn(calls, name)| ==> CanTake(Done(CallsOn(calls, name)[i], picked))
    ensures CanPick(calls, name, picked)
  {
    hide CanTake;
    if calls != [] {
      var init, on := calls[..|calls| - 1], CallsOn(calls, name);
      var before := CallsOn(init, name);
      forall i | 0 <= i < |before| ensures CanTake(Done(before[i], picked)) {
        assert before[i] == on[i];
      }
      CanPickOn(init, name, picked);
      if calls[|calls| - 1].sql.table == name {
        assert on[|before|] == calls[|calls| - 1];
      }
    }
  }

  lemma {:induction false} TakeAllResolves(calls: seq<Call>, name: string, picked: Table)
    requires CallsLegal(calls) && CanPick(calls, name, picked)
    ensures Resolves(TakeAll(calls, name, picked), calls)
  {
    hide CanTake, Legal, Take;
    if calls != [] {
      var init, call := calls[..|calls| - 1], calls[|calls| - 1];
      TakeAllResolves(init, name, picked);
      Taken(call, name, picked);
    }
  }

  lemma {:induction false} TakeAllOn(calls: seq<Call>, name: string, picked: Table)
    ensures OpsOn(TakeAll(calls, name, picked), name) == OpsPicking(CallsOn(calls, name), picked)
  {
    hide Legal, BoundRows, LastWins;
    if calls != [] {
      var init, call := calls[..|calls| - 1], calls[|calls| - 1];
      TakeAllOn(init, name, picked);
      var ops, op := TakeAll(init, name, picked), Take(call, name, picked);
      assert (ops + [op])[..|ops|] == ops && op.call == call;
    }
  }

  lemma Taken(call: Call, name: string, picked: Table)
    requires Legal(call) && (call.sql.table == name ==> CanTake(Done(call, picked)))
    ensures Take(call, name, picked).call == call && CanTake(Take(call, name, picked))
  {
    hide IsPick;
    if call.sql.MergeSql? {
      LastWinsIsPick(call.sql.pk, BoundRows(call));
    }
  }

  /** A write can stop after any number of the statements of one table. */
  lemma {:induction false} CutOn(calls: seq<Call>, name: string, n: nat) returns (m: nat)
    requires n <= |CallsOn(calls, name)|
    ensures m <= |calls| && CallsOn(calls[..m], name) == CallsOn(calls, name)[..n]
  {
    m := |calls|;
    if n == |CallsOn(calls, name)| {
      assert calls[..m] == calls;
    } else {
      var init := calls[..|calls| - 1];
      m := CutOn(init, name, n);
      assert init[..m] == calls[..m];
    }
  }

  /** An attempt that takes the first `n` statements of a current table, the MERGE with the given pick. */
  lemma {:induction false} AttemptPicking(sc: Schema, batch: seq<ChangeEvent>, table: string, picked: Table, n: nat)
      returns (a: Attempt)
    requires sc.Valid() && AllMapped(sc, batch) && table in sc.tables
    requires n <= |CurrentCalls(sc.tables[table], TableEvents(sc, batch, table))|
    requires IsPick(sc.tables[table].pk, AsFirst(UpsertDicts(TableEvents(sc, batch, table))), picked)
    ensures ValidAttempt(sc, batch, a)
    ensures OpsOn(a.ops, sc.tables[table].current)
         == OpsPicking(CurrentCalls(sc.tables[table], TableEvents(sc, batch, table))[..n], picked)
  {
    hide Schema.Valid, CallsFor, CanTake, Legal, IsPick, AsFirst, TableEvents, CurrentCalls;
    var conf, es := sc.tables[table], TableEvents(sc, batch, table);
    OrderMapped(sc, batch);
    CallsForLegal(sc, TableOrder(sc, batch), batch);
    ProgramOn(sc, batch, table);
    OpsPickingFinish(conf, es, picked);
    var calls, own := Program(sc, batch), CurrentCalls(conf, es);
    var m := CutOn(calls, conf.current, n);
    forall i | 0 <= i < n ensures CanTake(Done(own[..n][i], picked)) {
      assert OpsPicking(own, picked)[i] == Done(own[i], picked);
    }
    CanPickOn(calls[..m], conf.current, picked);
    TakeAllResolves(calls[..m], conf.current, picked);
    TakeAllOn(calls[..m], conf.current, picked);
    a := Attempt(|batch|, TakeAll(calls[..m], conf.current, picked));
    assert batch[..|batch|] == batch;
  }

  // ---- What such an attempt makes of a key -------------------------------------------------------

  /** Stopped right after the MERGE. */
  lemma MergedOnly(conf: TableConf, cols: set<string>, es: seq<ChangeEvent>, t: Table, k: Key, r: Row)
    requires Tidy(conf.pk, cols, es) && r in Slice(conf.pk, Upserts(es), k)
    ensures CurrentCalls(conf, es) != []
    ensures var ops := OpsPicking(CurrentCalls(conf, es)[..1], PickWith(conf.pk, Upserts(es), r));
            AllLegal(ops) && Slice(conf.pk, RunTable(t, ops), k) == MergeAt(conf.pk, Slice(conf.pk, t, k), [r])
  {
    hide Tidy, Slice, RunTable, MergeAt, PickWith, IsPick, Upserts, CanTake;
    var picked := PickWith(conf.pk, Upserts(es), r);
    PickOf(conf, cols, es, k, r);
    OneMerge(conf, es, picked);
    var ops := OpsPicking(CurrentCalls(conf, es)[..1], picked);
    RunBatchAt(conf.pk, t, ops, k);
  }

  lemma PickOf(conf: TableConf, cols: set<string>, es: seq<ChangeEvent>, k: Key, r: Row)
    requires Tidy(conf.pk, cols, es) && r in Slice(conf.pk, Upserts(es), k)
    ensures IsPick(conf.pk, AsFirst(UpsertDicts(es)), PickWith(conf.pk, Upserts(es), r))
    ensures Slice(conf.pk, PickWith(conf.pk, Upserts(es), r), k) == [r]
    ensures UpsertDicts(es) != [] && Complete(k)
  {
    hide Tidy, Slice, PickWith, IsPick, AsFirst, Complete;
    SliceMember(conf.pk, Upserts(es), k, r);
    PickWithIsPick(conf.pk, Upserts(es), r);
    AsFirstIsAll(conf.pk, cols, es);
    TidyPeers(conf.pk, cols, es, k, r, r);
    assert |Upserts(es)| > 0;
  }

  lemma OneMerge(conf: TableConf, es: seq<ChangeEvent>, picked: Table)
    requires UpsertDicts(es) != [] && IsPick(conf.pk, AsFirst(UpsertDicts(es)), picked)
    ensures CurrentCalls(conf, es) != []
    ensures var ops := OpsPicking(CurrentCalls(conf, es)[..1], picked);
            MergeThenDeletes(conf.pk, ops) && AllLegal(ops) && Picked(ops) == picked && DeletedBy(ops) == []
  {
    hide IsPick, AsFirst, Template, Flatten, Rows, DeleteCalls, UpsertDicts, CanTake;
    OpsPickingFinish(conf, es, picked);
    var all := OpsPicking(CurrentCalls(conf, es), picked);
    FinishedIsStarted(conf, es, all);
    StartedShape(conf, es, all);
    var ops := OpsPicking(CurrentCalls(conf, es)[..1], picked);
    assert ops == [all[0]];
    assert ops[..0] == [];
  }

  /** All statements of the table taken: a key that the batch deletes is gone. */
  lemma TakenWhole(conf: TableConf, cols: set<string>, es: seq<ChangeEvent>, t: Table, k: Key, picked: Table)
    requires Tidy(conf.pk, cols, es) && IsPick(conf.pk, AsFirst(UpsertDicts(es)), picked)
    requires Complete(k) && k in DeleteKeys(conf.pk, es)
    ensures var ops := OpsPicking(CurrentCalls(conf, es), picked);
            AllLegal(ops) && Slice(conf.pk, RunTable(t, ops), k) == []
  {
    hide *;
    OpsPickingFinish(conf, es, picked);
    FinishedAt(conf, cols, es, t, OpsPicking(CurrentCalls(conf, es), picked), k);
  }

  // ---- Every outcome occurs ------------------------------------------------------------------------

  /** These attempts turn the rows of `k` in `t` into `now`. */
  ghost predicate Reaches(sc: Schema, batch: seq<ChangeEvent>, attempts: seq<Attempt>, table: string, t: Table, k: Key,
                          now: Table)
    requires AllMapped(sc, batch) && table in sc.tables
  {
    var conf := sc.tables[table];
    && ValidAttempts(sc, batch, attempts)
    && AllLegal(OpsOn(OpsOf(attempts), conf.current))
    && Slice(conf.pk, AfterAttempts(t, attempts, conf.current), k) == now
  }

  lemma ReachesNothing(sc: Schema, batch: seq<ChangeEvent>, table: string, t: Table, k: Key)
    requires AllMapped(sc, batch) && table in sc.tables
    ensures Reaches(sc, batch, [], table, t, k, Slice(sc.tables[table].pk, t, k))
  {
    hide Slice, ValidAttempt;
  }

  /** One attempt more, which takes the first `n` statements of the table. */
  lemma ReachesMore(sc: Schema, batch: seq<ChangeEvent>, attempts: seq<Attempt>, table: string, t: Table, k: Key,
                    was: Table, picked: Table, n: nat, now: Table)
      returns (more: seq<Attempt>)
    requires sc.Valid() && AllMapped(sc, batch) && table in sc.tables
    requires n <= |CurrentCalls(sc.tables[table], TableEvents(sc, batch, table))|
    requires IsPick(sc.tables[table].pk, AsFirst(UpsertDicts(TableEvents(sc, batch, table))), picked)
    requires Reaches(sc, batch, attempts, table, t, k, was)
    requires var conf := sc.tables[table];
             var ops := OpsPicking(CurrentCalls(conf, TableEvents(sc, batch, table))[..n], picked);
             forall u :: Slice(conf.pk, u, k) == was ==>
                           AllLegal(ops) && Slice(conf.pk, RunTable(u, ops), k) == now
    ensures Reaches(sc, batch, more, table, t, k, now)
  {
    hide Schema.Valid, ValidAttempt, AllLegal, RunTable, Slice, IsPick, AsFirst, TableEvents, CurrentCalls, OpsPicking;
    var conf := sc.tables[table];
    var u := AfterAttempts(t, attempts, conf.current);
    var a := AttemptPicking(sc, batch, table, picked, n);
    more := attempts + [a];
    assert Slice(conf.pk, u, k) == was;
    OpsOfSnoc(attempts, a);
    OpsOnConcat(OpsOf(attempts), a.ops, conf.current);
    BothLegal(OpsOn(OpsOf(attempts), conf.current), OpsOn(a.ops, conf.current));
    RunTableConcat(t, OpsOn(OpsOf(attempts), conf.current), OpsOn(a.ops, conf.current));
  }

  lemma OpsOfSnoc(attempts: seq<Attempt>, a: Attempt)
    ensures OpsOf(attempts + [a]) == OpsOf(attempts) + a.ops
  {
    assert (attempts + [a])[..|attempts|] == attempts;
  }

  lemma BothLegal(a: seq<Done>, b: seq<Done>)
    requires AllLegal(a) && AllLegal(b)
    ensures AllLegal(a + b)
  {
  }

  lemma ReachesMerged(sc: Schema, cols: set<string>, batch: seq<ChangeEvent>, attempts: seq<Attempt>, table: string,
                      t: Table, k: Key, was: Table, r: Row)
      returns (more: seq<Attempt>)
    requires sc.Valid() && AllMapped(sc, batch) && table in sc.tables
    requires Tidy(sc.tables[table].pk, cols, TableEvents(sc, batch, table))
    requires Reaches(sc, batch, attempts, table, t, k, was)
    requires r in Slice(sc.tables[table].pk, Upserts(TableEvents(sc, batch, table)), k)
    ensures Reaches(sc, batch, more, table, t, k, MergeAt(sc.tables[table].pk, was, [r]))
  {
    hide *;
    var conf, es := sc.tables[table], TableEvents(sc, batch, table);
    var picked := PickWith(conf.pk, Upserts(es), r);
    PickOf(conf, cols, es, k, r);
    MergedOnly(conf, cols, es, t, k, r);
    var ops, now := OpsPicking(CurrentCalls(conf, es)[..1], picked), MergeAt(conf.pk, was, [r]);
    forall u | Slice(conf.pk, u, k) == was
      ensures AllLegal(ops) && Slice(conf.pk, RunTable(u, ops), k) == now
    {
      MergedOnly(conf, cols, es, u, k, r);
    }
    more := ReachesMore(sc, batch, attempts, table, t, k, was, picked, 1, now);
  }

  lemma ReachesGone(sc: Schema, cols: set<string>, batch: seq<ChangeEvent>, table: string, t: Table, k: Key)
      returns (attempts: seq<Attempt>)
    requires sc.Valid() && AllMapped(sc, batch) && table in sc.tables
    requires Tidy(sc.tables[table].pk, cols, TableEvents(sc, batch, table))
    requires Complete(k) && k in DeleteKeys(sc.tables[table].pk, TableEvents(sc, batch, table))
    ensures Reaches(sc, batch, attempts, table, t, k, [])
  {
    hide *;
    var conf, es := sc.tables[table], TableEvents(sc, batch, table);
    var picked, was := LastWins(conf.pk, AsFirst(UpsertDicts(es))), Slice(conf.pk, t, k);
    LastWinsIsPick(conf.pk, AsFirst(UpsertDicts(es)));
    ReachesNothing(sc, batch, table, t, k);
    var calls := CurrentCalls(conf, es);
    var ops := OpsPicking(calls, picked);
    forall u | Slice(conf.pk, u, k) == was
      ensures AllLegal(ops) && Slice(conf.pk, RunTable(u, ops), k) == []
    {
      TakenWhole(conf, cols, es, u, k, picked);
    }
    assert calls[..|calls|] == calls;
    attempts := ReachesMore(sc, batch, [], table, t, k, was, picked, |calls|, []);
  }

  lemma {:induction false} EveryDriftOccurs(sc: Schema, cols: set<string>, batch: seq<ChangeEvent>, table: string,
                                            t: Table, k: Key, now: Table)
      returns (attempts: seq<Attempt>)
    requires sc.Valid() && AllMapped(sc, batch) && table in sc.tables
    requires Tidy(sc.tables[table].pk, cols, TableEvents(sc, batch, table))
    requires Drifted(sc.tables[table].pk, TableEvents(sc, batch, table), k, Slice(sc.tables[table].pk, t, k), now)
    ensures Reaches(sc, batch, attempts, table, t, k, now)
  {
    var pk, es := sc.tables[table].pk, TableEvents(sc, batch, table);
    var was := Slice(pk, t, k);
    hide Schema.Valid, Tidy, Reaches, Slice, Upserts, DeleteKeys, MergeAt, TableEvents, Complete;
    attempts := [];
    ReachesNothing(sc, batch, table, t, k);
    if now == was {
    } else if r :| r in Slice(pk, Upserts(es), k) && now == MergeAt(pk, was, [r]) {
      attempts := ReachesMerged(sc, cols, batch, [], table, t, k, was, r);
    } else {
      attempts := ReachesGone(sc, cols, batch, table, t, k);
      if now != [] {
        var r :| r in Slice(pk, Upserts(es), k) && now == [r];
        attempts := ReachesMerged(sc, cols, batch, attempts, table, t, k, [], r);
        MergeIntoNone(pk, was, r);
      }
    }
  }

  /** Stopped attempts on a batch can make of a key's rows exactly what `Drifted` lists. */
  lemma {:induction false} DriftedIsExact(sc: Schema, cols: set<string>, batch: seq<ChangeEvent>, table: string,
                                          t: Table, k: Key, now: Table)
    requires sc.Valid() && AllMapped(sc, batch) && table in sc.tables
    requires Tidy(sc.tables[table].pk, cols, TableEvents(sc, batch, table))
    ensures Drifted(sc.tables[table].pk, TableEvents(sc, batch, table), k, Slice(sc.tables[table].pk, t, k), now)
       <==> exists attempts :: Reaches(sc, batch, attempts, table, t, k, now)
  {
    hide Schema.Valid, Tidy, Drifted, Slice, TableEvents, RunTable, AllLegal, OpsOn, ValidAttempts;
    if attempts :| Reaches(sc, batch, attempts, table, t, k, now) {
      AttemptsStayDrifted(sc, cols, batch, attempts, table, t, k);
    }
    if Drifted(sc.tables[table].pk, TableEvents(sc, batch, table), k, Slice(sc.tables[table].pk, t, k), now) {
      var attempts := EveryDriftOccurs(sc, cols, batch, table, t, k, now);
    }
  }
}
