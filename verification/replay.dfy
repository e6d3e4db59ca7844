/**
 The obvious specification of the sink is to replay the events one at a time, in order. This
 module says exactly when one deduplicated batch leaves the same current table.
 */
module Replay {
  import opened Values
  import opened Tables
  import opened Statements
  import opened Events
  import opened Batches

  // ---- Replaying a log -----------------------------------------------------------------------

  function ApplyEvent(pk: seq<string>, t: Table, e: ChangeEvent): Table {
    if HasUpsert(e) then Merge(pk, t, [UpsertRow(e).at])
    else if e.op.Delete? then DeleteKey(pk, t, DeleteKeyOf(pk, e))
    else t
  }

  function ReplayTable(pk: seq<string>, t: Table, es: seq<ChangeEvent>): Table {
    if es == [] then t else ApplyEvent(pk, ReplayTable(pk, t, es[..|es| - 1]), es[|es| - 1])
  }

  function ReplayDb(sc: Schema, db: Db, events: seq<ChangeEvent>): Db
    requires AllMapped(sc, events)
  {
    if events == [] then db
    else
      var before, e := ReplayDb(sc, db, events[..|events| - 1]), events[|events| - 1];
      var conf := sc.tables[sc.Normalize(e.table)];
      before[conf.current := ApplyEvent(conf.pk, At(before, conf.current), e)]
  }

  lemma {:induction false} ReplayDbAt(sc: Schema, db: Db, events: seq<ChangeEvent>, table: string)
    requires sc.Valid() && AllMapped(sc, events) && table in sc.tables
    ensures At(ReplayDb(sc, db, events), sc.tables[table].current)
         == ReplayTable(sc.tables[table].pk, At(db, sc.tables[table].current), TableEvents(sc, events, table))
  {
    hide ApplyEvent;
    if events == [] {
    } else {
      var init, e := events[..|events| - 1], events[|events| - 1];
      ReplayDbAt(sc, db, init, table);
      var own, es := sc.Normalize(e.table), TableEvents(sc, init, table);
      if own == table {
        assert (es + [e])[..|es|] == es;
      } else {
        assert sc.tables[own].current != sc.tables[table].current;
        assert es + [] == es;
      }
    }
  }

  lemma {:induction false} ReplayTableConcat(pk: seq<string>, t: Table, a: seq<ChangeEvent>, b: seq<ChangeEvent>)
    ensures ReplayTable(pk, t, a + b) == ReplayTable(pk, ReplayTable(pk, t, a), b)
  {
    hide ApplyEvent;
    if b == [] {
      assert a + b == a;
    } else {
      assert (a + b)[..|a + b| - 1] == a + b[..|b| - 1];
      ReplayTableConcat(pk, t, a, b[..|b| - 1]);
    }
  }

  // ---- Hypotheses the code does not enforce ------------------------------------------------------

  predicate TidyRow(pk: seq<string>, cols: set<string>, r: Row) {
    r.Keys == cols && Complete(KeyOf(pk, r))
  }

  /** Upserted rows share their columns and have no NULL in the key. */
  predicate Tidy(pk: seq<string>, cols: set<string>, es: seq<ChangeEvent>) {
    forall i :: 0 <= i < |es| && HasUpsert(es[i]) ==> TidyRow(pk, cols, UpsertRow(es[i]).at)
  }

  lemma {:induction false} TidyDicts(pk: seq<string>, cols: set<string>, es: seq<ChangeEvent>)
    requires Tidy(pk, cols, es)
    ensures forall i :: 0 <= i < |UpsertDicts(es)| ==> TidyRow(pk, cols, UpsertDicts(es)[i].at)
  {
    hide TidyRow, UpsertRow, HasUpsert;
    if es == [] {
    } else {
      TidyDicts(pk, cols, es[..|es| - 1]);
    }
  }

  function Upserts(es: seq<ChangeEvent>): Table { Rows(UpsertDicts(es)) }

  /** Binding every row with the first row's columns loses nothing when the columns agree. */
  lemma AsFirstIsAll(pk: seq<string>, cols: set<string>, es: seq<ChangeEvent>)
    requires Tidy(pk, cols, es)
    ensures AsFirst(UpsertDicts(es)) == Upserts(es)
  {
    hide UpsertDicts, Tidy, KeyOf, AsFirst, Rows;
    TidyDicts(pk, cols, es);
    AsFirstSameColumns(cols, UpsertDicts(es));
  }

  lemma TidyPeers(pk: seq<string>, cols: set<string>, es: seq<ChangeEvent>, k: Key, a: Row, b: Row)
    requires Tidy(pk, cols, es)
    requires a in Slice(pk, Upserts(es), k) && b in Slice(pk, Upserts(es), k)
    ensures Peers(pk, a, b) && Complete(k) && KeyOf(pk, a) == k
  {
    TidyDicts(pk, cols, es);
    SliceMember(pk, Upserts(es), k, a);
    SliceMember(pk, Upserts(es), k, b);
  }

  lemma UpsertsSnoc(pk: seq<string>, es: seq<ChangeEvent>, e: ChangeEvent, k: Key)
    ensures Slice(pk, Upserts(es + [e]), k)
         == Slice(pk, Upserts(es), k)
            + (if HasUpsert(e) && KeyOf(pk, UpsertRow(e).at) == k then [UpsertRow(e).at] else [])
  {
    assert (es + [e])[..|es|] == es;
    if HasUpsert(e) {
      assert Upserts(es + [e]) == Upserts(es) + [UpsertRow(e).at];
      SliceSnoc(pk, Upserts(es), UpsertRow(e).at, k);
    } else {
      assert Upserts(es + [e]) == Upserts(es);
    }
  }

  // ---- Replay, one key at a time ----------------------------------------------------------------------

  /** The last event touching key `k` is a delete. */
  function EndsDeleted(pk: seq<string>, es: seq<ChangeEvent>, k: Key): bool {
    if es == [] then false
    else
      var e := es[|es| - 1];
      if HasUpsert(e) && KeyOf(pk, UpsertRow(e).at) == k then false
      else if e.op.Delete? && DeleteKeyOf(pk, e) == k then true
      else EndsDeleted(pk, es[..|es| - 1], k)
  }

  function ReplayedAt(pk: seq<string>, rows: Table, es: seq<ChangeEvent>, k: Key): Table {
    if k !in DeleteKeys(pk, es) then MergeAt(pk, rows, Last(Slice(pk, Upserts(es), k)))
    else if EndsDeleted(pk, es, k) then []
    else Last(Slice(pk, Upserts(es), k))
  }

  lemma SliceApply(pk: seq<string>, t: Table, e: ChangeEvent, k: Key)
    requires HasUpsert(e) ==> Complete(KeyOf(pk, UpsertRow(e).at))
    ensures Slice(pk, ApplyEvent(pk, t, e), k)
         == if HasUpsert(e) && KeyOf(pk, UpsertRow(e).at) == k then MergeAt(pk, Slice(pk, t, k), [UpsertRow(e).at])
            else if e.op.Delete? && DeleteKeyOf(pk, e) == k && Complete(k) then []
            else Slice(pk, t, k)
  {
    if HasUpsert(e) {
      var r := UpsertRow(e).at;
      SliceMerge(pk, t, [r], k);
      SliceSnoc(pk, [], r, k);
      assert [] + [r] == [r];
      assert Slice(pk, t, k) + [] == Slice(pk, t, k);
    } else if e.op.Delete? {
      SliceDelete(pk, t, DeleteKeyOf(pk, e), k);
    }
  }

  /** A key whose last touch is not a delete, though it was deleted, has an upsert. */
  lemma {:induction false} RevivedHasUpsert(pk: seq<string>, es: seq<ChangeEvent>, k: Key)
    requires k in DeleteKeys(pk, es) && !EndsDeleted(pk, es, k)
    ensures Slice(pk, Upserts(es), k) != []
  {
    hide UpsertRow, DeleteKeyOf, HasUpsert;
    var init, e := es[..|es| - 1], es[|es| - 1];
    assert es == init + [e];
    UpsertsSnoc(pk, init, e, k);
    if !(HasUpsert(e) && KeyOf(pk, UpsertRow(e).at) == k) {
      RevivedHasUpsert(pk, init, k);
    }
  }

  lemma {:induction false} ReplayAt(pk: seq<string>, cols: set<string>, t: Table, es: seq<ChangeEvent>, k: Key)
    requires Tidy(pk, cols, es)
    ensures Slice(pk, ReplayTable(pk, t, es), k)
         == if Complete(k) then ReplayedAt(pk, Slice(pk, t, k), es, k) else Slice(pk, t, k)
  {
    hide UpsertRow, DeleteKeyOf, HasUpsert, TidyRow, ApplyEvent, Complete, MergeAt;
    if es == [] {
      ReplayNothing(pk, Slice(pk, t, k), k);
    } else {
      var init, e := es[..|es| - 1], es[|es| - 1];
      assert es == init + [e];
      ReplayAt(pk, cols, t, init, k);
      assert HasUpsert(e) ==> TidyRow(pk, cols, UpsertRow(e).at);
      ReplayStep(pk, cols, Slice(pk, t, k), init, e, k);
      TidyComplete(pk, cols, e);
      SliceApply(pk, ReplayTable(pk, t, init), e, k);
    }
  }

  lemma TidyComplete(pk: seq<string>, cols: set<string>, e: ChangeEvent)
    requires HasUpsert(e) ==> TidyRow(pk, cols, UpsertRow(e).at)
    ensures HasUpsert(e) ==> Complete(KeyOf(pk, UpsertRow(e).at))
  {
  }

  lemma ReplayNothing(pk: seq<string>, rows: Table, k: Key)
    ensures ReplayedAt(pk, rows, [], k) == rows
  {
  }

  lemma ReplayStep(pk: seq<string>, cols: set<string>, rows: Table, es: seq<ChangeEvent>, e: ChangeEvent, k: Key)
    requires Tidy(pk, cols, es + [e])
    ensures ReplayedAt(pk, rows, es + [e], k)
         == if HasUpsert(e) && KeyOf(pk, UpsertRow(e).at) == k
            then MergeAt(pk, ReplayedAt(pk, rows, es, k), [UpsertRow(e).at])
            else if e.op.Delete? && DeleteKeyOf(pk, e) == k then []
            else ReplayedAt(pk, rows, es, k)
  {
    if HasUpsert(e) && KeyOf(pk, UpsertRow(e).at) == k {
      ReplayUpsert(pk, cols, rows, es, e, k);
    } else {
      hide *;
      UpsertsSnoc(pk, es, e, k);
      TouchSnoc(pk, es, e, k);
      assert Slice(pk, Upserts(es), k) + [] == Slice(pk, Upserts(es), k);
      ReplayedBy(pk, rows, es, k);
      ReplayedBy(pk, rows, es + [e], k);
    }
  }

  lemma ReplayedBy(pk: seq<string>, rows: Table, es: seq<ChangeEvent>, k: Key)
    ensures ReplayedAt(pk, rows, es, k)
         == if k !in DeleteKeys(pk, es) then MergeAt(pk, rows, Last(Slice(pk, Upserts(es), k)))
            else if EndsDeleted(pk, es, k) then []
            else Last(Slice(pk, Upserts(es), k))
  {
    hide DeleteKeys, EndsDeleted, Upserts, Slice, MergeAt, Last;
  }

  /** How one more event counts for a key, as a delete and as the last one. */
  lemma TouchSnoc(pk: seq<string>, es: seq<ChangeEvent>, e: ChangeEvent, k: Key)
    ensures k in DeleteKeys(pk, es + [e]) <==> k in DeleteKeys(pk, es) || (e.op.Delete? && DeleteKeyOf(pk, e) == k)
    ensures EndsDeleted(pk, es + [e], k)
         == if HasUpsert(e) && KeyOf(pk, UpsertRow(e).at) == k then false
            else if e.op.Delete? && DeleteKeyOf(pk, e) == k then true
            else EndsDeleted(pk, es, k)
  {
    hide DeleteKeyOf, UpsertRow, HasUpsert, KeyOf;
    assert (es + [e])[..|es|] == es;
  }

  lemma ReplayUpsert(pk: seq<string>, cols: set<string>, rows: Table, es: seq<ChangeEvent>, e: ChangeEvent, k: Key)
    requires Tidy(pk, cols, es + [e])
    requires HasUpsert(e) && KeyOf(pk, UpsertRow(e).at) == k
    ensures ReplayedAt(pk, rows, es + [e], k) == MergeAt(pk, ReplayedAt(pk, rows, es, k), [UpsertRow(e).at])
  {
    hide *;
    UpsertedLast(pk, rows, es, e, k);
    UpsertAbsorbs(pk, cols, rows, es, e, k);
  }

  /** A key whose last event is an upsert. */
  lemma UpsertedLast(pk: seq<string>, rows: Table, es: seq<ChangeEvent>, e: ChangeEvent, k: Key)
    requires HasUpsert(e) && KeyOf(pk, UpsertRow(e).at) == k
    ensures ReplayedAt(pk, rows, es + [e], k)
         == if k in DeleteKeys(pk, es) then [UpsertRow(e).at] else MergeAt(pk, rows, [UpsertRow(e).at])
  {
    hide UpsertRow, DeleteKeyOf, Slice, MergeAt, Upserts;
    var all := es + [e];
    assert all[..|es|] == es && all[|es|] == e;
    UpsertsSnoc(pk, es, e, k);
    assert DeleteKeys(pk, all) == DeleteKeys(pk, es);
  }

  lemma UpsertAbsorbs(pk: seq<string>, cols: set<string>, rows: Table, es: seq<ChangeEvent>, e: ChangeEvent, k: Key)
    requires Tidy(pk, cols, es + [e])
    requires HasUpsert(e) && KeyOf(pk, UpsertRow(e).at) == k
    ensures MergeAt(pk, ReplayedAt(pk, rows, es, k), [UpsertRow(e).at])
         == if k in DeleteKeys(pk, es) then [UpsertRow(e).at] else MergeAt(pk, rows, [UpsertRow(e).at])
  {
    hide UpsertRow, DeleteKeys, EndsDeleted, Slice, Upserts, MergeAt, Tidy, KeyOf, HasUpsert;
    var r, s := UpsertRow(e).at, Slice(pk, Upserts(es), k);
    MergeIntoNone(pk, rows, r);
    if s != [] {
      LastOf(s);
      LastUpsertPeers(pk, cols, es, e, k);
      MergeAbsorbs(pk, rows, s[|s| - 1], r);
      MergeAbsorbs(pk, [], s[|s| - 1], r);
      MergeIntoNone(pk, rows, s[|s| - 1]);
    } else if k in DeleteKeys(pk, es) && !EndsDeleted(pk, es, k) {
      RevivedHasUpsert(pk, es, k);
    }
  }

  lemma LastUpsertPeers(pk: seq<string>, cols: set<string>, es: seq<ChangeEvent>, e: ChangeEvent, k: Key)
    requires Tidy(pk, cols, es + [e])
    requires HasUpsert(e) && KeyOf(pk, UpsertRow(e).at) == k
    requires Slice(pk, Upserts(es), k) != []
    ensures var s := Slice(pk, Upserts(es), k); Peers(pk, s[|s| - 1], UpsertRow(e).at)
  {
    hide UpsertRow, Slice, Upserts, Tidy, KeyOf, HasUpsert, Peers;
    var r, s := UpsertRow(e).at, Slice(pk, Upserts(es), k);
    UpsertsSnoc(pk, es, e, k);
    assert s[|s| - 1] in s + [r] && r in s + [r];
    TidyPeers(pk, cols, es + [e], k, s[|s| - 1], r);
  }

  lemma LastOf(t: Table)
    requires t != []
    ensures Last(t) == [t[|t| - 1]] && t[|t| - 1] in t
  {
  }

  lemma MergeIntoNone(pk: seq<string>, rows: Table, r: Row)
    ensures MergeAt(pk, [], [r]) == [r] && MergeAt(pk, rows, []) == rows
  {
  }

  // ---- One batch against replay --------------------------------------------------------------------------

  /** Every key deleted in the batch has a delete as its last event. */
  ghost predicate DeletesLast(pk: seq<string>, es: seq<ChangeEvent>) {
    forall k :: k in DeleteKeys(pk, es) && Complete(k) ==> EndsDeleted(pk, es, k)
  }

  /** All upserts of a key that is not deleted carry the row of the last one. */
  ghost predicate OneVersion(pk: seq<string>, es: seq<ChangeEvent>) {
    forall k, r :: r in Slice(pk, Upserts(es), k) && k !in DeleteKeys(pk, es) ==>
                     [r] == Last(Slice(pk, Upserts(es), k))
  }

  lemma MergeCallBinds(conf: TableConf, es: seq<ChangeEvent>, op: Done)
    requires UpsertDicts(es) != []
    requires op.call == MergeCalls(conf, es)[0]
    ensures Legal(op.call) && BoundRows(op.call) == AsFirst(UpsertDicts(es))
  {
    var ds := UpsertDicts(es);
    BindExact(Rows(ds), ds[0].keys);
  }

  /** The first statements of a table's program, all taken. */
  ghost predicate Started(conf: TableConf, es: seq<ChangeEvent>, ops: seq<Done>)
  {
    Part(ops, CurrentCalls(conf, es))
  }

  ghost predicate Finished(conf: TableConf, es: seq<ChangeEvent>, ops: seq<Done>)
  {
    Resolves(ops, CurrentCalls(conf, es))
  }

  lemma FinishedIsStarted(conf: TableConf, es: seq<ChangeEvent>, ops: seq<Done>)
    requires Finished(conf, es, ops)
    ensures Started(conf, es, ops)
  {
    assert CurrentCalls(conf, es)[..|ops|] == CurrentCalls(conf, es);
  }

  lemma StartedCalls(conf: TableConf, es: seq<ChangeEvent>, ops: seq<Done>, i: nat)
    requires Started(conf, es, ops) && i < |ops|
    ensures CanTake(ops[i])
    ensures UpsertDicts(es) != [] && i == 0 ==> ops[i].call == MergeCalls(conf, es)[0] && ops[i].call.sql.MergeSql?
    ensures !(UpsertDicts(es) != [] && i == 0) ==> ops[i].call.sql.DeleteSql?
    ensures ops[i].call.sql.pk == conf.pk
  {
    assert ops[i].call == CurrentCalls(conf, es)[i];
  }

  lemma StartedShape(conf: TableConf, es: seq<ChangeEvent>, ops: seq<Done>)
    requires Started(conf, es, ops)
    ensures MergeThenDeletes(conf.pk, ops) && AllLegal(ops)
  {
    hide CanTake;
    forall i | 0 <= i < |ops|
      ensures CanTake(ops[i]) && ops[i].call.sql.pk == conf.pk
      ensures ops[i].call.sql.DeleteSql? || (i == 0 && ops[i].call.sql.MergeSql?)
    {
      StartedCalls(conf, es, ops, i);
    }
    assert forall i :: 0 <= i < |ops| ==> Legal(ops[i].call) by { TakenAreLegal(ops); }
  }

  lemma TakenAreLegal(ops: seq<Done>)
    requires forall i :: 0 <= i < |ops| ==> CanTake(ops[i])
    ensures AllLegal(ops)
  {
  }

  lemma StartedDeleteCall(conf: TableConf, es: seq<ChangeEvent>, ops: seq<Done>, i: nat)
    requires Started(conf, es, ops) && |MergeCalls(conf, es)| <= i < |ops|
    ensures i - |MergeCalls(conf, es)| < |DeleteKeys(conf.pk, es)|
    ensures ops[i].call.params == DeleteKeys(conf.pk, es)[i - |MergeCalls(conf, es)|]
  {
    hide CanTake, MergeCalls, DeleteKeys;
    assert ops[i].call == CurrentCalls(conf, es)[i];
  }

  /** An attempt that stops early has deleted some first keys of the batch. */
  lemma StartedDeletes(conf: TableConf, es: seq<ChangeEvent>, ops: seq<Done>)
    requires Started(conf, es, ops)
    ensures DeletedBy(ops) <= DeleteKeys(conf.pk, es)
    ensures |ops| == |CurrentCalls(conf, es)| ==> DeletedBy(ops) == DeleteKeys(conf.pk, es)
  {
    var skip := |MergeCalls(conf, es)|;
    CallsCount(conf, es);
    assert |ops| <= |CurrentCalls(conf, es)|;
    hide Started, MergeCalls, CurrentCalls, DeleteKeys, DeletedBy;
    assert AfterMerge(ops, skip, DeleteKeys(conf.pk, es)) by {
      forall i | 0 <= i < |ops|
        ensures if i < skip then ops[i].call.sql.MergeSql?
                else ops[i].call.sql.DeleteSql? && ops[i].call.params == DeleteKeys(conf.pk, es)[i - skip]
      {
        StartedCalls(conf, es, ops, i);
        if i >= skip { StartedDeleteCall(conf, es, ops, i); }
      }
    }
    hide AfterMerge;
    DeletedAfterMerge(ops, skip, DeleteKeys(conf.pk, es));
  }

  /** Statement `i` of a table: its MERGE when there is one, then a DELETE for each key. */
  predicate AfterMerge(ops: seq<Done>, skip: nat, keys: seq<Key>) {
    |ops| <= skip + |keys| &&
    forall i :: 0 <= i < |ops| ==>
      if i < skip then ops[i].call.sql.MergeSql? else ops[i].call.sql.DeleteSql? && ops[i].call.params == keys[i - skip]
  }

  lemma AfterMergeInit(ops: seq<Done>, skip: nat, keys: seq<Key>)
    requires AfterMerge(ops, skip, keys) && ops != []
    ensures AfterMerge(ops[..|ops| - 1], skip, keys)
    ensures var n := |ops| - 1;
            if n < skip then ops[n].call.sql.MergeSql?
            else n - skip < |keys| && ops[n].call.sql.DeleteSql? && ops[n].call.params == keys[n - skip]
  {
  }

  lemma {:induction false} DeletedAfterMerge(ops: seq<Done>, skip: nat, keys: seq<Key>)
    requires AfterMerge(ops, skip, keys)
    ensures 0 <= |ops| - skip ==> |ops| - skip <= |keys| && DeletedBy(ops) == keys[..|ops| - skip]
    ensures |ops| <= skip ==> DeletedBy(ops) == []
  {
    if ops == [] {
    } else {
      var n := |ops| - 1;
      AfterMergeInit(ops, skip, keys);
      hide AfterMerge;
      DeletedAfterMerge(ops[..n], skip, keys);
      if n >= skip {
        assert keys[..n + 1 - skip] == keys[..n - skip] + [keys[n - skip]];
      }
    }
  }

  lemma CallsCount(conf: TableConf, es: seq<ChangeEvent>)
    ensures |CurrentCalls(conf, es)| == |MergeCalls(conf, es)| + |DeleteKeys(conf.pk, es)|
    ensures |MergeCalls(conf, es)| == if UpsertDicts(es) == [] then 0 else 1
  {
  }

  /** An attempt has merged one allowed pick of all upserts, or nothing yet. */
  lemma StartedPicks(conf: TableConf, es: seq<ChangeEvent>, ops: seq<Done>)
    requires Started(conf, es, ops)
    ensures Picked(ops) == [] || IsPick(conf.pk, AsFirst(UpsertDicts(es)), Picked(ops))
    ensures |ops| == |CurrentCalls(conf, es)| ==> IsPick(conf.pk, AsFirst(UpsertDicts(es)), Picked(ops))
    ensures |ops| == |CurrentCalls(conf, es)| && AllTakeLast(ops) ==>
              Picked(ops) == LastWins(conf.pk, AsFirst(UpsertDicts(es)))
  {
    CallsCount(conf, es);
    if ops != [] {
      StartedCalls(conf, es, ops, 0);
    }
    if UpsertDicts(es) == [] {
      EmptyIsPick(conf);
    } else if ops != [] {
      MergeCallBinds(conf, es, ops[0]);
    }
  }

  lemma EmptyIsPick(conf: TableConf)
    ensures IsPick(conf.pk, AsFirst([]), [])
  {
  }

  lemma FinishedPick(conf: TableConf, cols: set<string>, es: seq<ChangeEvent>, ops: seq<Done>)
    requires Finished(conf, es, ops) && Tidy(conf.pk, cols, es)
    ensures AllLegal(ops) && IsPick(conf.pk, Upserts(es), Picked(ops))
    ensures AllTakeLast(ops) ==> Picked(ops) == LastWins(conf.pk, Upserts(es))
  {
    hide CanTake, IsPick, LastWins;
    FinishedIsStarted(conf, es, ops);
    StartedShape(conf, es, ops);
    StartedPicks(conf, es, ops);
    AsFirstIsAll(conf.pk, cols, es);
  }

  /** A finished batch, one key at a time. */
  lemma {:induction false} FinishedAt(conf: TableConf, cols: set<string>, es: seq<ChangeEvent>, t: Table,
                                      ops: seq<Done>, k: Key)
    requires Finished(conf, es, ops) && Tidy(conf.pk, cols, es)
    ensures AllLegal(ops) && IsPick(conf.pk, Upserts(es), Picked(ops))
    ensures Slice(conf.pk, RunTable(t, ops), k)
         == if !Complete(k) then Slice(conf.pk, t, k)
            else if k in DeleteKeys(conf.pk, es) then []
            else MergeAt(conf.pk, Slice(conf.pk, t, k), Slice(conf.pk, Picked(ops), k))
  {
    var pk := conf.pk;
    FinishedIsStarted(conf, es, ops);
    StartedShape(conf, es, ops);
    StartedDeletes(conf, es, ops);
    StartedPicks(conf, es, ops);
    AsFirstIsAll(pk, cols, es);
    RunBatchAt(pk, t, ops, k);
    PickAt(pk, Upserts(es), Picked(ops), k);
    var s := Slice(pk, Upserts(es), k);
    if s != [] {
      TidyPeers(pk, cols, es, k, s[0], s[0]);
    }
    assert Slice(pk, t, k) + [] == Slice(pk, t, k);
  }

  /** Where no key revives after a delete, replay and batch differ at most in which upsert they keep. */
  lemma FinishedAgainstReplay(conf: TableConf, cols: set<string>, es: seq<ChangeEvent>, t: Table, ops: seq<Done>,
                              k: Key)
    requires Finished(conf, es, ops) && Tidy(conf.pk, cols, es)
    requires k in DeleteKeys(conf.pk, es) && Complete(k) ==> EndsDeleted(conf.pk, es, k)
    requires k !in DeleteKeys(conf.pk, es) ==> Slice(conf.pk, Picked(ops), k) == Last(Slice(conf.pk, Upserts(es), k))
    ensures AllLegal(ops)
    ensures Slice(conf.pk, RunTable(t, ops), k) == Slice(conf.pk, ReplayTable(conf.pk, t, es), k)
  {
    FinishedAt(conf, cols, es, t, ops, k);
    ReplayAt(conf.pk, cols, t, es, k);
  }

  /** A key that revives after a delete is lost by the batch and kept by replay. */
  lemma {:induction false} RevivedKeyIsLost(conf: TableConf, cols: set<string>, es: seq<ChangeEvent>, t: Table,
                                            ops: seq<Done>, k: Key)
    requires Finished(conf, es, ops) && Tidy(conf.pk, cols, es)
    requires k in DeleteKeys(conf.pk, es) && Complete(k) && !EndsDeleted(conf.pk, es, k)
    ensures AllLegal(ops)
    ensures Slice(conf.pk, RunTable(t, ops), k) == [] != Slice(conf.pk, ReplayTable(conf.pk, t, es), k)
    ensures !SameRows(RunTable(t, ops), ReplayTable(conf.pk, t, es))
  {
    var pk := conf.pk;
    FinishedAt(conf, cols, es, t, ops, k);
    ReplayAt(pk, cols, t, es, k);
    RevivedHasUpsert(pk, es, k);
    var replayed := Slice(pk, ReplayTable(pk, t, es), k);
    assert replayed[0] in replayed;
    assert multiset(replayed)[replayed[0]] > 0;
    if SameRows(RunTable(t, ops), ReplayTable(pk, t, es)) {
      SameRowsBySlice(pk, RunTable(t, ops), ReplayTable(pk, t, es), k);
    }
  }

  /** With the intended last-wins pick, a batch equals replay exactly when deletes come last. */
  lemma {:induction false} LastWinsBatchIsReplay(conf: TableConf, cols: set<string>, es: seq<ChangeEvent>, t: Table,
                                                 ops: seq<Done>)
    requires Finished(conf, es, ops) && Tidy(conf.pk, cols, es) && AllTakeLast(ops)
    ensures AllLegal(ops)
    ensures SameRows(RunTable(t, ops), ReplayTable(conf.pk, t, es)) <==> DeletesLast(conf.pk, es)
    ensures DeletesLast(conf.pk, es) ==> Alike(conf.pk, RunTable(t, ops), ReplayTable(conf.pk, t, es))
  {
    var pk := conf.pk;
    FinishedPick(conf, cols, es, ops);
    if DeletesLast(pk, es) {
      forall k ensures Slice(pk, RunTable(t, ops), k) == Slice(pk, ReplayTable(pk, t, es), k) {
        LastWinsAt(pk, Upserts(es), k);
        FinishedAgainstReplay(conf, cols, es, t, ops, k);
      }
      AlikeIsSameRows(pk, RunTable(t, ops), ReplayTable(pk, t, es));
    } else {
      var k :| k in DeleteKeys(pk, es) && Complete(k) && !EndsDeleted(pk, es, k);
      RevivedKeyIsLost(conf, cols, es, t, ops, k);
    }
  }

  /** Whatever the MERGE picks: equal to replay if deletes come last and kept keys have one version. */
  lemma {:induction false} AnyPickBatchIsReplay(conf: TableConf, cols: set<string>, es: seq<ChangeEvent>, t: Table,
                                                ops: seq<Done>)
    requires Finished(conf, es, ops) && Tidy(conf.pk, cols, es)
    requires DeletesLast(conf.pk, es) && OneVersion(conf.pk, es)
    ensures AllLegal(ops) && Alike(conf.pk, RunTable(t, ops), ReplayTable(conf.pk, t, es))
  {
    var pk := conf.pk;
    FinishedPick(conf, cols, es, ops);
    forall k ensures Slice(pk, RunTable(t, ops), k) == Slice(pk, ReplayTable(pk, t, es), k) {
      hide OneVersion, IsPick, RunTable, ReplayTable, Finished, Tidy;
      OneVersionPick(pk, es, Picked(ops), k);
      FinishedAgainstReplay(conf, cols, es, t, ops, k);
    }
  }

  lemma OneVersionPick(pk: seq<string>, es: seq<ChangeEvent>, picked: Table, k: Key)
    requires OneVersion(pk, es) && IsPick(pk, Upserts(es), picked)
    ensures k !in DeleteKeys(pk, es) ==> Slice(pk, picked, k) == Last(Slice(pk, Upserts(es), k))
  {
    PickAt(pk, Upserts(es), picked, k);
    var s := Slice(pk, picked, k);
    if s != [] {
      assert s == [s[0]];
    }
  }

  /** A finished run of a table's statements whose MERGE picked the given rows. */
  function OpsPicking(calls: seq<Call>, picked: Table): seq<Done> {
    seq(|calls|, i requires 0 <= i < |calls| => Done(calls[i], picked))
  }

  lemma OpsPickingFinish(conf: TableConf, es: seq<ChangeEvent>, picked: Table)
    requires IsPick(conf.pk, AsFirst(UpsertDicts(es)), picked)
    ensures Finished(conf, es, OpsPicking(CurrentCalls(conf, es), picked))
    ensures UpsertDicts(es) != [] ==> Picked(OpsPicking(CurrentCalls(conf, es), picked)) == picked
  {
    hide IsPick, Template, Flatten, Rows, AsFirst, Bind, Placeholders;
    var calls := CurrentCalls(conf, es);
    var ops := OpsPicking(calls, picked);
    CallsCount(conf, es);
    forall i | 0 <= i < |ops| ensures ops[i].call == calls[i] && CanTake(ops[i]) {
      if i < |MergeCalls(conf, es)| {
        MergeCallBinds(conf, es, ops[i]);
      } else {
        DeleteCallsLegal(conf, es, i - |MergeCalls(conf, es)|);
      }
    }
  }

  lemma DeleteCallsLegal(conf: TableConf, es: seq<ChangeEvent>, i: nat)
    requires i < |DeleteCalls(conf, es)|
    ensures DeleteCalls(conf, es)[i].sql.DeleteSql? && Legal(DeleteCalls(conf, es)[i])
  {
    DeleteKeysWidth(conf.pk, es);
  }

  lemma {:induction false} DeleteKeysWidth(pk: seq<string>, es: seq<ChangeEvent>)
    ensures forall i :: 0 <= i < |DeleteKeys(pk, es)| ==> |DeleteKeys(pk, es)[i]| == |pk|
  {
    if es == [] {
    } else {
      DeleteKeysWidth(pk, es[..|es| - 1]);
    }
  }

  lemma DifferAtKey(pk: seq<string>, a: Table, b: Table, k: Key, rows: Table, r: Row, last: Row)
    requires Slice(pk, a, k) == MergeAt(pk, rows, [r]) && Slice(pk, b, k) == MergeAt(pk, rows, [last])
    requires Peers(pk, r, last) && r != last
    ensures !SameRows(a, b)
  {
    hide *;
    MergeTells(pk, rows, r, last);
    if SameRows(a, b) {
      SameRowsBySlice(pk, a, b, k);
    }
  }

  lemma OtherVersionDiffers(conf: TableConf, cols: set<string>, es: seq<ChangeEvent>, t: Table, ops: seq<Done>,
                            k: Key, r: Row)
    requires Finished(conf, es, ops) && Tidy(conf.pk, cols, es)
    requires k !in DeleteKeys(conf.pk, es) && Slice(conf.pk, Picked(ops), k) == [r]
    requires r in Slice(conf.pk, Upserts(es), k) && [r] != Last(Slice(conf.pk, Upserts(es), k))
    ensures AllLegal(ops)
    ensures !SameRows(RunTable(t, ops), ReplayTable(conf.pk, t, es))
  {
    hide *;
    var pk := conf.pk;
    var rows, all := Slice(pk, t, k), Slice(pk, Upserts(es), k);
    var last := all[|all| - 1];
    LastOf(all);
    TidyPeers(pk, cols, es, k, r, last);
    FinishedAt(conf, cols, es, t, ops, k);
    ReplayAt(pk, cols, t, es, k);
    assert ReplayedAt(pk, rows, es, k) == MergeAt(pk, rows, [last]) by { KeptReplay(pk, rows, es, k); }
    DifferAtKey(pk, RunTable(t, ops), ReplayTable(pk, t, es), k, rows, r, last);
  }

  lemma KeptReplay(pk: seq<string>, rows: Table, es: seq<ChangeEvent>, k: Key)
    requires k !in DeleteKeys(pk, es)
    ensures ReplayedAt(pk, rows, es, k) == MergeAt(pk, rows, Last(Slice(pk, Upserts(es), k)))
  {
  }

  /** If two versions of a kept key differ, some allowed pick leaves a different table. */
  lemma {:induction false} SomePickDiffers(conf: TableConf, cols: set<string>, es: seq<ChangeEvent>, t: Table, k: Key,
                                           r: Row)
      returns (ops: seq<Done>)
    requires Tidy(conf.pk, cols, es)
    requires k !in DeleteKeys(conf.pk, es)
    requires r in Slice(conf.pk, Upserts(es), k) && [r] != Last(Slice(conf.pk, Upserts(es), k))
    ensures Finished(conf, es, ops) && AllLegal(ops)
    ensures !SameRows(RunTable(t, ops), ReplayTable(conf.pk, t, es))
  {
    hide Finished, IsPick, Slice;
    var pk := conf.pk;
    SliceMember(pk, Upserts(es), k, r);
    var picked := PickWith(pk, Upserts(es), r);
    PickWithIsPick(pk, Upserts(es), r);
    AsFirstIsAll(pk, cols, es);
    assert UpsertDicts(es) != [] by { assert |Upserts(es)| > 0; }
    ops := OpsPicking(CurrentCalls(conf, es), picked);
    OpsPickingFinish(conf, es, picked);
    OtherVersionDiffers(conf, cols, es, t, ops, k, r);
  }

  lemma SomeRunFinishes(conf: TableConf, es: seq<ChangeEvent>) returns (ops: seq<Done>)
    ensures Finished(conf, es, ops)
  {
    var picked := LastWins(conf.pk, AsFirst(UpsertDicts(es)));
    LastWinsIsPick(conf.pk, AsFirst(UpsertDicts(es)));
    OpsPickingFinish(conf, es, picked);
    ops := OpsPicking(CurrentCalls(conf, es), picked);
  }

  /** The exact condition under which the batch equals replay whatever the MERGE picks. */
  lemma EveryPickBatchIsReplay(conf: TableConf, cols: set<string>, es: seq<ChangeEvent>, t: Table)
    requires Tidy(conf.pk, cols, es)
    ensures (forall ops :: Finished(conf, es, ops) ==>
               AllLegal(ops) && SameRows(RunTable(t, ops), ReplayTable(conf.pk, t, es)))
        <==> DeletesLast(conf.pk, es) && OneVersion(conf.pk, es)
  {
    var pk := conf.pk;
    if DeletesLast(pk, es) && OneVersion(pk, es) {
      forall ops | Finished(conf, es, ops)
        ensures AllLegal(ops) && SameRows(RunTable(t, ops), ReplayTable(pk, t, es))
      {
        AnyPickBatchIsReplay(conf, cols, es, t, ops);
        AlikeIsSameRows(pk, RunTable(t, ops), ReplayTable(pk, t, es));
      }
    } else if !DeletesLast(pk, es) {
      var k :| k in DeleteKeys(pk, es) && Complete(k) && !EndsDeleted(pk, es, k);
      var ops := SomeRunFinishes(conf, es);
      RevivedKeyIsLost(conf, cols, es, t, ops, k);
    } else {
      var k, r :| r in Slice(pk, Upserts(es), k) && k !in DeleteKeys(pk, es) && [r] != Last(Slice(pk, Upserts(es), k));
      var ops := SomePickDiffers(conf, cols, es, t, k, r);
    }
  }
}
