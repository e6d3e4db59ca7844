/**
 Retries. A flush writes its batch with non-transactional statements and starts over when one
 fails; a batch that used up its retries stays in the buffer and is tried again, longer, later.
 An attempt is therefore any first part of the program of any first part of the buffer.
 */
module Attempts {
  import opened Values
  import opened Tables
  import opened Statements
  import opened Events
  import opened Batches
  import opened Replay

  /** A write that stopped: it had the first `size` events and its first statements took effect. */
  datatype Attempt = Attempt(size: nat, ops: seq<Done>)

  ghost predicate ValidAttempt(sc: Schema, batch: seq<ChangeEvent>, a: Attempt)
    requires AllMapped(sc, batch)
  {
    a.size <= |batch| && Part(a.ops, Program(sc, batch[..a.size]))
  }

  ghost predicate ValidAttempts(sc: Schema, batch: seq<ChangeEvent>, attempts: seq<Attempt>)
    requires AllMapped(sc, batch)
  {
    forall i :: 0 <= i < |attempts| ==> ValidAttempt(sc, batch, attempts[i])
  }

  function OpsOf(attempts: seq<Attempt>): seq<Done> {
    if attempts == [] then [] else OpsOf(attempts[..|attempts| - 1]) + attempts[|attempts| - 1].ops
  }

  lemma {:induction false} AttemptsLegal(sc: Schema, batch: seq<ChangeEvent>, attempts: seq<Attempt>)
    requires AllMapped(sc, batch) && ValidAttempts(sc, batch, attempts)
    ensures AllLegal(OpsOf(attempts))
  {
    hide Program, Resolves, Legal;
    if attempts == [] {
    } else {
      var a := attempts[|attempts| - 1];
      AttemptsLegal(sc, batch, attempts[..|attempts| - 1]);
      assert ValidAttempt(sc, batch, a);
      ResolvedLegal(a.ops, Program(sc, batch[..a.size])[..|a.ops|]);
    }
  }

  // ---- One table's view of an attempt --------------------------------------------------------

  lemma TableEventsPrefix(sc: Schema, batch: seq<ChangeEvent>, n: nat, table: string)
    requires n <= |batch|
    ensures TableEvents(sc, batch[..n], table) <= TableEvents(sc, batch, table)
  {
    assert batch == batch[..n] + batch[n..];
    TableEventsConcat(sc, batch[..n], batch[n..], table);
  }

  lemma AttemptOn(sc: Schema, batch: seq<ChangeEvent>, a: Attempt, table: string)
    requires sc.Valid() && AllMapped(sc, batch) && ValidAttempt(sc, batch, a) && table in sc.tables
    ensures Started(sc.tables[table], TableEvents(sc, batch[..a.size], table), OpsOn(a.ops, sc.tables[table].current))
  {
    hide Schema.Valid, Resolves, Program, CurrentCalls;
    var conf, calls := sc.tables[table], Program(sc, batch[..a.size]);
    ProgramOn(sc, batch[..a.size], table);
    CallsOnPrefix(calls, |a.ops|, conf.current);
    ResolvesOn(a.ops, calls[..|a.ops|], conf.current);
    var own := CallsOn(calls[..|a.ops|], conf.current);
    assert own == CallsOn(calls, conf.current)[..|own|];
    ResolvedLegal(OpsOn(a.ops, conf.current), own);
  }

  lemma FinalOn(sc: Schema, batch: seq<ChangeEvent>, final: seq<Done>, table: string)
    requires sc.Valid() && AllMapped(sc, batch) && Resolves(final, Program(sc, batch)) && table in sc.tables
    ensures Finished(sc.tables[table], TableEvents(sc, batch, table), OpsOn(final, sc.tables[table].current))
    ensures AllTakeLast(final) ==> AllTakeLast(OpsOn(final, sc.tables[table].current))
  {
    hide Schema.Valid, Resolves, Program, CurrentCalls;
    ProgramOn(sc, batch, table);
    ResolvesOn(final, Program(sc, batch), sc.tables[table].current);
  }

  // ---- Failed attempts are absorbed ------------------------------------------------------------

  /**
   What stopped attempts on a batch may have made of the rows `was` of a key: nothing, or one of the
   batch's upserts has been merged, or, if the batch deletes the key, the rows are gone, or gone
   and then one of the upserts inserted.
   */
  ghost predicate Drifted(pk: seq<string>, es: seq<ChangeEvent>, k: Key, was: Table, now: Table) {
    || now == was
    || (Complete(k) && exists r :: r in Slice(pk, Upserts(es), k) && now == MergeAt(pk, was, [r]))
    || (Complete(k) && k in DeleteKeys(pk, es) && now == [])
    || (Complete(k) && k in DeleteKeys(pk, es) && exists r :: r in Slice(pk, Upserts(es), k) && now == [r])
  }

  /** The batch neither upserts nor deletes the key; a DELETE with a NULL in its key deletes nothing. */
  ghost predicate Untouched(pk: seq<string>, es: seq<ChangeEvent>, k: Key) {
    !Complete(k) || (k !in DeleteKeys(pk, es) && Slice(pk, Upserts(es), k) == [])
  }

  lemma UntouchedStays(pk: seq<string>, es: seq<ChangeEvent>, k: Key, was: Table, now: Table)
    requires Drifted(pk, es, k, was, now) && Untouched(pk, es, k)
    ensures now == was
  {
    hide Slice, Upserts, DeleteKeys, MergeAt;
  }

  lemma MergeKeepsDrifted(pk: seq<string>, cols: set<string>, es: seq<ChangeEvent>, k: Key, was: Table, now: Table,
                          r: Row)
    requires Tidy(pk, cols, es) && Complete(k) && Drifted(pk, es, k, was, now)
    requires r in Slice(pk, Upserts(es), k)
    ensures Drifted(pk, es, k, was, MergeAt(pk, now, [r]))
  {
    hide Tidy, Upserts, Slice, MergeAt, Peers, DeleteKeys, Complete;
    MergeIntoNone(pk, was, r);
    if now == was {
    } else if q :| q in Slice(pk, Upserts(es), k) && now == MergeAt(pk, was, [q]) {
      TidyPeers(pk, cols, es, k, q, r);
      MergeAbsorbs(pk, was, q, r);
    } else if q :| q in Slice(pk, Upserts(es), k) && now == [q] {
      TidyPeers(pk, cols, es, k, q, r);
      MergeAbsorbs(pk, [], q, r);
      MergeIntoNone(pk, was, q);
    } else {
      assert now == [] && k in DeleteKeys(pk, es);
    }
  }

  lemma TidyPrefix(pk: seq<string>, cols: set<string>, es: seq<ChangeEvent>, part: seq<ChangeEvent>)
    requires Tidy(pk, cols, es) && part <= es
    ensures Tidy(pk, cols, part)
  {
    forall i | 0 <= i < |part| && HasUpsert(part[i]) ensures TidyRow(pk, cols, UpsertRow(part[i]).at) {
      assert part[i] == es[i];
    }
  }

  /** What an attempt picks and deletes is part of what the whole batch upserts and deletes. */
  lemma PartOfBatch(pk: seq<string>, es: seq<ChangeEvent>, part: seq<ChangeEvent>, k: Key)
    requires part <= es
    ensures k in DeleteKeys(pk, part) ==> k in DeleteKeys(pk, es)
    ensures forall r :: r in Slice(pk, Upserts(part), k) ==> r in Slice(pk, Upserts(es), k)
  {
    assert es == part + es[|part|..];
    DeleteKeysConcat(pk, part, es[|part|..]);
    UpsertDictsConcat(part, es[|part|..]);
    assert Upserts(es) == Upserts(part) + Upserts(es[|part|..]);
    SliceConcat(pk, Upserts(part), Upserts(es[|part|..]), k);
  }

  lemma StartedPickAt(conf: TableConf, cols: set<string>, es: seq<ChangeEvent>, ops: seq<Done>, k: Key)
    requires Started(conf, es, ops) && Tidy(conf.pk, cols, es)
    ensures AllLegal(ops)
    ensures var s := Slice(conf.pk, Picked(ops), k);
            s == [] || (|s| == 1 && s[0] in Slice(conf.pk, Upserts(es), k))
  {
    hide Started, Tidy, IsPick, Upserts, MergeThenDeletes;
    StartedShape(conf, es, ops);
    StartedPicks(conf, es, ops);
    AsFirstIsAll(conf.pk, cols, es);
    if Picked(ops) != [] {
      PickAt(conf.pk, Upserts(es), Picked(ops), k);
    }
  }

  lemma {:induction false} AttemptKeepsDrifted(conf: TableConf, cols: set<string>, es: seq<ChangeEvent>,
                                               part: seq<ChangeEvent>, ops: seq<Done>, was: Table, t: Table, k: Key)
    requires part <= es && Started(conf, part, ops) && Tidy(conf.pk, cols, es)
    requires Drifted(conf.pk, es, k, was, Slice(conf.pk, t, k))
    ensures AllLegal(ops)
    ensures Drifted(conf.pk, es, k, was, Slice(conf.pk, RunTable(t, ops), k))
  {
    hide Started, Tidy, Slice, Upserts, DeleteKeys, RunTable, MergeThenDeletes, Picked, DeletedBy, Complete;
    var pk := conf.pk;
    TidyPrefix(pk, cols, es, part);
    StartedShape(conf, part, ops);
    StartedDeletes(conf, part, ops);
    StartedPickAt(conf, cols, part, ops, k);
    RunBatchAt(pk, t, ops, k);
    PartOfBatch(pk, es, part, k);
    var now, s := Slice(pk, t, k), Slice(pk, Picked(ops), k);
    hide Drifted, MergeAt;
    if s == [] {
      assert now + s == now;
      MergeNothing(pk, now);
    } else {
      assert s == [s[0]];
      TidyPeers(pk, cols, es, k, s[0], s[0]);
      MergeKeepsDrifted(pk, cols, es, k, was, now, s[0]);
    }
    if Complete(k) && k in DeletedBy(ops) {
      assert k in DeleteKeys(pk, part);
      GoneIsDrifted(pk, es, k, was);
    }
  }

  lemma MergeNothing(pk: seq<string>, rows: Table)
    ensures MergeAt(pk, rows, []) == rows
  {
  }

  lemma GoneIsDrifted(pk: seq<string>, es: seq<ChangeEvent>, k: Key, was: Table)
    requires Complete(k) && k in DeleteKeys(pk, es)
    ensures Drifted(pk, es, k, was, [])
  {
  }

  /** Merging a row of the batch repairs what its stopped attempts made of a key that it does not delete. */
  lemma MergeRepairs(pk: seq<string>, cols: set<string>, es: seq<ChangeEvent>, k: Key, was: Table, now: Table, r: Row)
    requires Tidy(pk, cols, es) && Drifted(pk, es, k, was, now) && k !in DeleteKeys(pk, es)
    requires r in Slice(pk, Upserts(es), k)
    ensures MergeAt(pk, now, [r]) == MergeAt(pk, was, [r])
  {
    hide Tidy, Upserts, Slice, MergeAt, Peers, DeleteKeys, Complete;
    if now != was {
      var q :| q in Slice(pk, Upserts(es), k) && now == MergeAt(pk, was, [q]);
      TidyPeers(pk, cols, es, k, q, r);
      MergeAbsorbs(pk, was, q, r);
    }
  }

  lemma FinalRepairs(conf: TableConf, cols: set<string>, es: seq<ChangeEvent>, ops: seq<Done>, t: Table, u: Table,
                     k: Key)
    requires Finished(conf, es, ops) && Tidy(conf.pk, cols, es)
    requires Drifted(conf.pk, es, k, Slice(conf.pk, t, k), Slice(conf.pk, u, k))
    ensures AllLegal(ops)
    ensures Slice(conf.pk, RunTable(u, ops), k) == Slice(conf.pk, RunTable(t, ops), k)
  {
    hide Finished, Tidy, Slice, Upserts, DeleteKeys, RunTable, IsPick, Picked, Drifted, Complete, MergeAt;
    FinishedAt(conf, cols, es, t, ops, k);
    FinishedAt(conf, cols, es, u, ops, k);
    PickAt(conf.pk, Upserts(es), Picked(ops), k);
    var s, was, now := Slice(conf.pk, Picked(ops), k), Slice(conf.pk, t, k), Slice(conf.pk, u, k);
    if Complete(k) && k in DeleteKeys(conf.pk, es) {
    } else if s == [] || !Complete(k) {
      UntouchedIs(conf.pk, es, k);
      UntouchedStays(conf.pk, es, k, was, now);
    } else {
      assert s == [s[0]];
      MergeRepairs(conf.pk, cols, es, k, was, now, s[0]);
    }
  }

  lemma UntouchedIs(pk: seq<string>, es: seq<ChangeEvent>, k: Key)
    ensures !Complete(k) || (k !in DeleteKeys(pk, es) && Slice(pk, Upserts(es), k) == []) ==> Untouched(pk, es, k)
  {
  }

  /** A table after the given attempts, as only its own statements see it. */
  function AfterAttempts(t: Table, attempts: seq<Attempt>, name: string): Table
    requires AllLegal(OpsOn(OpsOf(attempts), name))
  {
    RunTable(t, OpsOn(OpsOf(attempts), name))
  }

  lemma AttemptsLegalOn(sc: Schema, batch: seq<ChangeEvent>, attempts: seq<Attempt>, name: string)
    requires AllMapped(sc, batch) && ValidAttempts(sc, batch, attempts)
    ensures AllLegal(OpsOn(OpsOf(attempts), name))
  {
    AttemptsLegal(sc, batch, attempts);
    LegalOn(OpsOf(attempts), name);
  }

  lemma {:induction false} LegalOn(ops: seq<Done>, name: string)
    requires AllLegal(ops)
    ensures AllLegal(OpsOn(ops, name))
  {
    if ops == [] {
    } else {
      LegalOn(ops[..|ops| - 1], name);
    }
  }

  lemma {:induction false} AttemptsStayDrifted(sc: Schema, cols: set<string>, batch: seq<ChangeEvent>,
                                               attempts: seq<Attempt>, table: string, t: Table, k: Key)
    requires sc.Valid() && AllMapped(sc, batch) && ValidAttempts(sc, batch, attempts) && table in sc.tables
    requires Tidy(sc.tables[table].pk, cols, TableEvents(sc, batch, table))
    ensures AllLegal(OpsOn(OpsOf(attempts), sc.tables[table].current))
    ensures Drifted(sc.tables[table].pk, TableEvents(sc, batch, table), k, Slice(sc.tables[table].pk, t, k),
                       Slice(sc.tables[table].pk, AfterAttempts(t, attempts, sc.tables[table].current), k))
  {
    hide Schema.Valid, Program, Resolves, Tidy, Started, Slice, RunTable, AllLegal, TableEvents, Drifted;
    var conf := sc.tables[table];
    AttemptsLegalOn(sc, batch, attempts, conf.current);
    if attempts == [] {
      NothingRan(t);
      StartsDrifted(conf.pk, TableEvents(sc, batch, table), k, Slice(conf.pk, t, k));
    } else {
      var init, a := attempts[..|attempts| - 1], attempts[|attempts| - 1];
      AttemptsStayDrifted(sc, cols, batch, init, table, t, k);
      AttemptOn(sc, batch, a, table);
      TableEventsPrefix(sc, batch, a.size, table);
      AttemptKeepsDrifted(conf, cols, TableEvents(sc, batch, table), TableEvents(sc, batch[..a.size], table),
                             OpsOn(a.ops, conf.current), Slice(conf.pk, t, k), AfterAttempts(t, init, conf.current), k);
      OpsOnConcat(OpsOf(init), a.ops, conf.current);
      RunTableConcat(t, OpsOn(OpsOf(init), conf.current), OpsOn(a.ops, conf.current));
    }
  }

  lemma NothingRan(t: Table)
    ensures AllLegal([]) && RunTable(t, []) == t
  {
  }

  lemma StartsDrifted(pk: seq<string>, es: seq<ChangeEvent>, k: Key, rows: Table)
    ensures Drifted(pk, es, k, rows, rows)
  {
  }

  /**
   Absorption. After any sequence of stopped attempts, on the batch or on any first part of it,
   one complete write leaves each current table exactly as the same write alone would have.
   */
  lemma FailedAttemptsAreAbsorbed(sc: Schema, cols: set<string>, batch: seq<ChangeEvent>, attempts: seq<Attempt>,
                                  final: seq<Done>, table: string, t: Table)
    requires sc.Valid() && AllMapped(sc, batch) && ValidAttempts(sc, batch, attempts) && table in sc.tables
    requires Resolves(final, Program(sc, batch))
    requires Tidy(sc.tables[table].pk, cols, TableEvents(sc, batch, table))
    ensures var name, pk := sc.tables[table].current, sc.tables[table].pk;
            && AllLegal(OpsOn(OpsOf(attempts) + final, name)) && AllLegal(OpsOn(final, name))
            && Alike(pk, RunTable(t, OpsOn(OpsOf(attempts) + final, name)), RunTable(t, OpsOn(final, name)))
  {
    hide Schema.Valid, ValidAttempts, Tidy, Finished, Slice, RunTable, Resolves, TableEvents, Drifted;
    var conf, es := sc.tables[table], TableEvents(sc, batch, table);
    var own := OpsOn(final, conf.current);
    AttemptsLegalOn(sc, batch, attempts, conf.current);
    FinalOn(sc, batch, final, table);
    FinishedPick(conf, cols, es, own);
    OpsOnConcat(OpsOf(attempts), final, conf.current);
    RunTableConcat(t, OpsOn(OpsOf(attempts), conf.current), own);
    var u := AfterAttempts(t, attempts, conf.current);
    forall k ensures Slice(conf.pk, RunTable(u, own), k) == Slice(conf.pk, RunTable(t, own), k) {
      AttemptsStayDrifted(sc, cols, batch, attempts, table, t, k);
      FinalRepairs(conf, cols, es, own, t, u, k);
    }
  }

  // ---- One row per primary key ------------------------------------------------------------------------

  /** Statements of programs of batches, with any allowed pick, in any mixture. */
  ghost predicate FromPrograms(sc: Schema, ops: seq<Done>) {
    forall i :: 0 <= i < |ops| ==>
      && CanTake(ops[i])
      && forall table :: table in sc.tables && ops[i].call.sql.table == sc.tables[table].current ==>
           !ops[i].call.sql.InsertSql? && ops[i].call.sql.pk == sc.tables[table].pk
  }

  lemma {:induction false} FromProgramsOn(sc: Schema, ops: seq<Done>, table: string)
    requires FromPrograms(sc, ops) && table in sc.tables
    ensures AllLegal(OpsOn(ops, sc.tables[table].current))
    ensures forall i :: 0 <= i < |OpsOn(ops, sc.tables[table].current)| ==>
              var op := OpsOn(ops, sc.tables[table].current)[i];
              CanTake(op) && !op.call.sql.InsertSql? && op.call.sql.pk == sc.tables[table].pk
  {
    hide IsPick;
    if ops == [] {
    } else {
      FromProgramsOn(sc, ops[..|ops| - 1], table);
    }
  }

  /** Key-uniqueness survives any mixture of first parts of batches, whatever the MERGEs pick. */
  lemma {:induction false} KeysStayUnique(sc: Schema, db: Db, ops: seq<Done>, table: string)
    requires sc.Valid() && FromPrograms(sc, ops) && AllLegal(ops) && table in sc.tables
    requires PkUnique(sc.tables[table].pk, At(db, sc.tables[table].current))
    ensures PkUnique(sc.tables[table].pk, At(Run(db, ops), sc.tables[table].current))
  {
    hide PkUnique, CanTake, Run, RunTable, Schema.Valid;
    FromProgramsOn(sc, ops, table);
    RunAt(db, ops, sc.tables[table].current);
    RunKeepsPkUnique(sc.tables[table].pk, At(db, sc.tables[table].current), OpsOn(ops, sc.tables[table].current));
  }

  lemma {:induction false} ProgramStatements(sc: Schema, tables: seq<string>, events: seq<ChangeEvent>, table: string)
    requires sc.Valid() && NamesMapped(sc, tables) && table in sc.tables
    ensures forall i :: 0 <= i < |CallsFor(sc, tables, events)| ==>
              var sql := CallsFor(sc, tables, events)[i].sql;
              sql.table == sc.tables[table].current ==> !sql.InsertSql? && sql.pk == sc.tables[table].pk
  {
    if tables == [] {
    } else {
      var init, t := tables[..|tables| - 1], tables[|tables| - 1];
      ProgramStatements(sc, init, events, table);
      TableStatements(sc.tables[t], TableEvents(sc, events, t));
      assert sc.tables[t].history != sc.tables[table].current;
      assert t != table ==> sc.tables[t].current != sc.tables[table].current;
    }
  }

  lemma TableStatements(conf: TableConf, es: seq<ChangeEvent>)
    ensures forall i :: 0 <= i < |TableCalls(conf, es)| ==>
              var sql := TableCalls(conf, es)[i].sql;
              if sql.InsertSql? then sql.table == conf.history else sql.table == conf.current && sql.pk == conf.pk
  {
    hide UpsertDicts, DeleteKeys, HistoryDicts, Template, Flatten, Rows;
    var merges, deletes, inserts := MergeCalls(conf, es), DeleteCalls(conf, es), HistoryCalls(conf, es);
    assert TableCalls(conf, es) == merges + deletes + inserts;
  }

  lemma AttemptFromProgram(sc: Schema, batch: seq<ChangeEvent>, a: Attempt)
    requires sc.Valid() && AllMapped(sc, batch) && ValidAttempt(sc, batch, a)
    ensures FromPrograms(sc, a.ops)
  {
    hide CanTake, Schema.Valid, CallsFor, TableOrder;
    var events := batch[..a.size];
    OrderMapped(sc, events);
    forall i, table | 0 <= i < |a.ops| && table in sc.tables
      ensures a.ops[i].call.sql.table == sc.tables[table].current ==>
                !a.ops[i].call.sql.InsertSql? && a.ops[i].call.sql.pk == sc.tables[table].pk
    {
      ProgramStatements(sc, TableOrder(sc, events), events, table);
      assert a.ops[i].call == Program(sc, events)[i];
    }
  }
}
