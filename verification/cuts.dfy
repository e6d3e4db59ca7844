/**
 The batch condition on a log instead of its batches. Where the log is cut depends on clocks and
 failures, so a caller can only look at the log: this module says for which logs every cut is good.
 */
module Cuts {
  import opened Values
  import opened Tables
  import opened Statements
  import opened Events
  import opened Batches
  import opened Replay
  import opened Cycles

  /** No key is upserted after a delete of it. */
  ghost predicate NeverRevived(pk: seq<string>, es: seq<ChangeEvent>) {
    forall i, j :: 0 <= i < j < |es| && es[i].op.Delete? && HasUpsert(es[j]) ==>
      KeyOf(pk, UpsertRow(es[j]).at) != DeleteKeyOf(pk, es[i])
  }

  /** All upserts of a key carry one row. */
  ghost predicate NeverRewritten(pk: seq<string>, es: seq<ChangeEvent>) {
    forall i, j :: 0 <= i < j < |es| && HasUpsert(es[i]) && HasUpsert(es[j])
                   && KeyOf(pk, UpsertRow(es[i]).at) == KeyOf(pk, UpsertRow(es[j]).at) ==>
      UpsertRow(es[i]).at == UpsertRow(es[j]).at
  }

  /** Every stretch of the log, taken as one batch, has its deletes last. */
  ghost predicate EveryCutDeletesLast(pk: seq<string>, es: seq<ChangeEvent>) {
    forall a, b :: 0 <= a <= b <= |es| ==> DeletesLast(pk, es[a..b])
  }

  ghost predicate EveryCutOneVersion(pk: seq<string>, es: seq<ChangeEvent>) {
    forall a, b :: 0 <= a <= b <= |es| ==> OneVersion(pk, es[a..b])
  }

  // ---- From keys and rows to events ------------------------------------------------------------

  lemma {:induction false} DeleteAt(pk: seq<string>, es: seq<ChangeEvent>, k: Key) returns (i: nat)
    requires k in DeleteKeys(pk, es)
    ensures i < |es| && es[i].op.Delete? && DeleteKeyOf(pk, es[i]) == k
  {
    hide DeleteKeyOf;
    var n := |es| - 1;
    if es[n].op.Delete? && DeleteKeyOf(pk, es[n]) == k {
      i := n;
    } else {
      i := DeleteAt(pk, es[..n], k);
    }
  }

  lemma {:induction false} DeleteIsMember(pk: seq<string>, es: seq<ChangeEvent>, i: nat)
    requires i < |es| && es[i].op.Delete?
    ensures DeleteKeyOf(pk, es[i]) in DeleteKeys(pk, es)
  {
    hide DeleteKeyOf;
    var n := |es| - 1;
    if i == n {
    } else {
      DeleteIsMember(pk, es[..n], i);
    }
  }

  lemma UpsertsNext(es: seq<ChangeEvent>)
    requires es != []
    ensures Upserts(es)
         == Upserts(es[..|es| - 1]) + (if HasUpsert(es[|es| - 1]) then [UpsertRow(es[|es| - 1]).at] else [])
  {
    hide UpsertRow, HasUpsert;
  }

  lemma {:induction false} UpsertAt(es: seq<ChangeEvent>, r: Row) returns (i: nat)
    requires r in Upserts(es)
    ensures i < |es| && HasUpsert(es[i]) && UpsertRow(es[i]).at == r
  {
    hide UpsertRow, HasUpsert, Upserts;
    NoUpserts();
    var n := |es| - 1;
    UpsertsNext(es);
    if HasUpsert(es[n]) && UpsertRow(es[n]).at == r {
      i := n;
    } else {
      i := UpsertAt(es[..n], r);
    }
  }

  lemma NoUpserts()
    ensures Upserts([]) == []
  {
  }

  lemma {:induction false} UpsertIsMember(es: seq<ChangeEvent>, i: nat)
    requires i < |es| && HasUpsert(es[i])
    ensures UpsertRow(es[i]).at in Upserts(es)
  {
    hide UpsertRow, HasUpsert, Upserts;
    var n := |es| - 1;
    UpsertsNext(es);
    if i == n {
    } else {
      UpsertIsMember(es[..n], i);
    }
  }

  /** A key that was deleted and does not end so was upserted after a delete. */
  lemma {:induction false} RevivedPair(pk: seq<string>, es: seq<ChangeEvent>, k: Key) returns (i: nat, j: nat)
    requires k in DeleteKeys(pk, es) && !EndsDeleted(pk, es, k)
    ensures i < j < |es| && es[i].op.Delete? && DeleteKeyOf(pk, es[i]) == k
    ensures HasUpsert(es[j]) && KeyOf(pk, UpsertRow(es[j]).at) == k
  {
    hide DeleteKeyOf, UpsertRow, HasUpsert, KeyOf, DeleteKeys, EndsDeleted;
    NothingDeleted(pk);
    var n := |es| - 1;
    assert es == es[..n] + [es[n]];
    TouchSnoc(pk, es[..n], es[n], k);
    if HasUpsert(es[n]) && KeyOf(pk, UpsertRow(es[n]).at) == k {
      i := DeleteAt(pk, es, k);
      j := n;
      UpsertIsNoDelete(es[n]);
    } else {
      i, j := RevivedPair(pk, es[..n], k);
    }
  }

  lemma NothingDeleted(pk: seq<string>)
    ensures DeleteKeys(pk, []) == []
  {
  }

  lemma UpsertIsNoDelete(e: ChangeEvent)
    ensures HasUpsert(e) ==> !e.op.Delete?
  {
  }

  // ---- Stretches of the log ----------------------------------------------------------------------

  lemma StretchNeverRevived(pk: seq<string>, es: seq<ChangeEvent>, a: nat, b: nat)
    requires NeverRevived(pk, es) && a <= b <= |es|
    ensures NeverRevived(pk, es[a..b])
  {
    hide DeleteKeyOf, UpsertRow, HasUpsert, KeyOf;
    var part := es[a..b];
    forall i, j | 0 <= i < j < |part| && part[i].op.Delete? && HasUpsert(part[j])
      ensures KeyOf(pk, UpsertRow(part[j]).at) != DeleteKeyOf(pk, part[i])
    {
      assert part[i] == es[a + i] && part[j] == es[a + j];
    }
  }

  lemma StretchNeverRewritten(pk: seq<string>, es: seq<ChangeEvent>, a: nat, b: nat)
    requires NeverRewritten(pk, es) && a <= b <= |es|
    ensures NeverRewritten(pk, es[a..b])
  {
    hide UpsertRow, HasUpsert, KeyOf;
    var part := es[a..b];
    forall i, j | 0 <= i < j < |part| && HasUpsert(part[i]) && HasUpsert(part[j])
                  && KeyOf(pk, UpsertRow(part[i]).at) == KeyOf(pk, UpsertRow(part[j]).at)
      ensures UpsertRow(part[i]).at == UpsertRow(part[j]).at
    {
      assert part[i] == es[a + i] && part[j] == es[a + j];
    }
  }

  lemma NeverRevivedDeletesLast(pk: seq<string>, es: seq<ChangeEvent>)
    requires NeverRevived(pk, es)
    ensures DeletesLast(pk, es)
  {
    hide DeleteKeyOf, UpsertRow, HasUpsert, KeyOf, DeleteKeys, EndsDeleted, Complete;
    forall k | k in DeleteKeys(pk, es) && Complete(k) ensures EndsDeleted(pk, es, k) {
      if !EndsDeleted(pk, es, k) {
        var i, j := RevivedPair(pk, es, k);
      }
    }
  }

  /** Two upserts of one key in such a log carry one row. */
  lemma SameVersion(pk: seq<string>, es: seq<ChangeEvent>, r: Row, q: Row)
    requires NeverRewritten(pk, es) && r in Upserts(es) && q in Upserts(es) && KeyOf(pk, r) == KeyOf(pk, q)
    ensures r == q
  {
    hide UpsertRow, HasUpsert, KeyOf, Upserts;
    var i := UpsertAt(es, r);
    var j := UpsertAt(es, q);
    if i < j {
      assert UpsertRow(es[i]).at == UpsertRow(es[j]).at;
    } else if j < i {
      assert UpsertRow(es[j]).at == UpsertRow(es[i]).at;
    }
  }

  lemma NeverRewrittenOneVersion(pk: seq<string>, es: seq<ChangeEvent>)
    requires NeverRewritten(pk, es)
    ensures OneVersion(pk, es)
  {
    hide NeverRewritten, KeyOf, Upserts, DeleteKeys, Slice;
    forall k, r | r in Slice(pk, Upserts(es), k) && k !in DeleteKeys(pk, es)
      ensures [r] == Last(Slice(pk, Upserts(es), k))
    {
      var all := Slice(pk, Upserts(es), k);
      LastOf(all);
      SliceMember(pk, Upserts(es), k, r);
      SliceMember(pk, Upserts(es), k, all[|all| - 1]);
      SameVersion(pk, es, r, all[|all| - 1]);
    }
  }

  // ---- The other direction -------------------------------------------------------------------------

  lemma StretchEnds(es: seq<ChangeEvent>, i: nat, j: nat)
    requires i < j < |es|
    ensures var part := es[i..j + 1]; |part| >= 2 && part[0] == es[i] && part[|part| - 1] == es[j]
  {
  }

  lemma RevivedPart(pk: seq<string>, part: seq<ChangeEvent>, k: Key)
    requires |part| >= 2 && part[0].op.Delete? && DeleteKeyOf(pk, part[0]) == k && Complete(k)
    requires HasUpsert(part[|part| - 1]) && KeyOf(pk, UpsertRow(part[|part| - 1]).at) == k
    ensures !DeletesLast(pk, part)
  {
    hide DeleteKeyOf, UpsertRow, HasUpsert, KeyOf, DeleteKeys, EndsDeleted, Complete;
    var n := |part| - 1;
    assert part == part[..n] + [part[n]];
    DeleteIsMember(pk, part, 0);
    TouchSnoc(pk, part[..n], part[n], k);
  }

  /** A stretch that ends in an upsert of a key it has deleted. */
  lemma RevivedStretch(pk: seq<string>, cols: set<string>, es: seq<ChangeEvent>, i: nat, j: nat)
    requires Tidy(pk, cols, es) && i < j < |es| && es[i].op.Delete? && HasUpsert(es[j])
    requires KeyOf(pk, UpsertRow(es[j]).at) == DeleteKeyOf(pk, es[i])
    ensures !DeletesLast(pk, es[i..j + 1])
  {
    hide DeleteKeyOf, UpsertRow, HasUpsert, KeyOf, Complete, DeletesLast;
    assert TidyRow(pk, cols, UpsertRow(es[j]).at);
    hide *;
    TidyKey(pk, cols, UpsertRow(es[j]).at);
    StretchEnds(es, i, j);
    RevivedPart(pk, es[i..j + 1], DeleteKeyOf(pk, es[i]));
  }

  lemma TidyKey(pk: seq<string>, cols: set<string>, r: Row)
    requires TidyRow(pk, cols, r)
    ensures Complete(KeyOf(pk, r))
  {
  }

  /** A stretch that begins and ends with different upserts of a key it does not delete. */
  lemma RewrittenStretch(pk: seq<string>, es: seq<ChangeEvent>, i: nat, j: nat)
    requires i < j < |es| && HasUpsert(es[i]) && HasUpsert(es[j]) && UpsertRow(es[i]).at != UpsertRow(es[j]).at
    requires KeyOf(pk, UpsertRow(es[i]).at) == KeyOf(pk, UpsertRow(es[j]).at)
    requires KeyOf(pk, UpsertRow(es[j]).at) !in DeleteKeys(pk, es[i..j + 1])
    ensures !OneVersion(pk, es[i..j + 1])
  {
    hide UpsertRow, HasUpsert, KeyOf, Upserts, DeleteKeys, Slice;
    var part, r, q := es[i..j + 1], UpsertRow(es[i]).at, UpsertRow(es[j]).at;
    var n, k := |part| - 1, KeyOf(pk, UpsertRow(es[j]).at);
    assert part[0] == es[i] && part[n] == es[j] && part == part[..n] + [part[n]];
    UpsertIsMember(part, 0);
    SliceMember(pk, Upserts(part), k, r);
    UpsertsSnoc(pk, part[..n], part[n], k);
    var all := Slice(pk, Upserts(part), k);
    LastOf(all);
    assert all[|all| - 1] == q && Last(all) == [q] && [r][0] != [q][0];
    assert r in all && [r] != Last(all);
  }

  /** No stretch that ends in an upsert of a key deletes it, where no key is upserted after a delete of it. */
  lemma NotDeletedBetween(pk: seq<string>, es: seq<ChangeEvent>, i: nat, j: nat)
    requires NeverRevived(pk, es) && i < j < |es| && HasUpsert(es[j])
    ensures KeyOf(pk, UpsertRow(es[j]).at) !in DeleteKeys(pk, es[i..j + 1])
  {
    StretchNeverRevived(pk, es, i, j + 1);
    StretchEnds(es, i, j);
    UpsertIsNoDelete(es[j]);
    hide *;
    LastNotDeleted(pk, es[i..j + 1]);
  }

  lemma LastNotDeleted(pk: seq<string>, part: seq<ChangeEvent>)
    requires NeverRevived(pk, part) && part != [] && HasUpsert(part[|part| - 1]) && !part[|part| - 1].op.Delete?
    ensures KeyOf(pk, UpsertRow(part[|part| - 1]).at) !in DeleteKeys(pk, part)
  {
    hide DeleteKeyOf, UpsertRow, HasUpsert, KeyOf, DeleteKeys;
    var k := KeyOf(pk, UpsertRow(part[|part| - 1]).at);
    forall d | 0 <= d < |part| && part[d].op.Delete? ensures DeleteKeyOf(pk, part[d]) != k {
      assert d < |part| - 1;
    }
    NotDeleted(pk, part, k);
  }

  lemma NotDeleted(pk: seq<string>, es: seq<ChangeEvent>, k: Key)
    requires forall d :: 0 <= d < |es| && es[d].op.Delete? ==> DeleteKeyOf(pk, es[d]) != k
    ensures k !in DeleteKeys(pk, es)
  {
    hide DeleteKeyOf, DeleteKeys;
    if k in DeleteKeys(pk, es) {
      var d := DeleteAt(pk, es, k);
    }
  }

  /**
   With the intended pick, a log is faithfully written however it is cut if and only if no key is
   upserted after a delete of it.
   */
  lemma {:induction false} EveryLastWinsCut(pk: seq<string>, cols: set<string>, es: seq<ChangeEvent>)
    requires Tidy(pk, cols, es)
    ensures EveryCutDeletesLast(pk, es) <==> NeverRevived(pk, es)
  {
    hide Tidy, DeletesLast, DeleteKeyOf, UpsertRow, HasUpsert, KeyOf;
    if NeverRevived(pk, es) {
      forall a, b | 0 <= a <= b <= |es| ensures DeletesLast(pk, es[a..b]) {
        StretchNeverRevived(pk, es, a, b);
        NeverRevivedDeletesLast(pk, es[a..b]);
      }
    } else {
      var i, j :| 0 <= i < j < |es| && es[i].op.Delete? && HasUpsert(es[j])
                  && KeyOf(pk, UpsertRow(es[j]).at) == DeleteKeyOf(pk, es[i]);
      RevivedStretch(pk, cols, es, i, j);
    }
  }

  /** Whatever the MERGEs pick, it is so if and only if, in addition, all upserts of a key carry one row. */
  lemma {:induction false} EveryCut(pk: seq<string>, cols: set<string>, es: seq<ChangeEvent>)
    requires Tidy(pk, cols, es)
    ensures EveryCutDeletesLast(pk, es) && EveryCutOneVersion(pk, es)
       <==> NeverRevived(pk, es) && NeverRewritten(pk, es)
  {
    hide Tidy, OneVersion, EveryCutDeletesLast, NeverRevived, UpsertRow, HasUpsert, KeyOf;
    EveryLastWinsCut(pk, cols, es);
    if NeverRevived(pk, es) && NeverRewritten(pk, es) {
      forall a, b | 0 <= a <= b <= |es| ensures OneVersion(pk, es[a..b]) {
        StretchNeverRewritten(pk, es, a, b);
        NeverRewrittenOneVersion(pk, es[a..b]);
      }
    } else if NeverRevived(pk, es) {
      var i, j :| 0 <= i < j < |es| && HasUpsert(es[i]) && HasUpsert(es[j])
                  && KeyOf(pk, UpsertRow(es[i]).at) == KeyOf(pk, UpsertRow(es[j]).at)
                  && UpsertRow(es[i]).at != UpsertRow(es[j]).at;
      NotDeletedBetween(pk, es, i, j);
      RewrittenStretch(pk, es, i, j);
    }
  }

  /** So such a log is written faithfully by every run of batches that confirms it. */
  lemma {:induction false} CalmLogIsFaithful(sc: Schema, cycles: seq<Cycle>, table: string)
    requires table in sc.tables
    requires var pk, log := sc.tables[table].pk, TableEvents(sc, LogOf(cycles), table);
             NeverRevived(pk, log) && NeverRewritten(pk, log)
    ensures AllFaithful(sc, cycles, table)
  {
    hide NeverRevived, NeverRewritten, TableEvents, DeletesLast, OneVersion;
    if cycles == [] {
    } else {
      var pk, init, c := sc.tables[table].pk, cycles[..|cycles| - 1], cycles[|cycles| - 1];
      var before, here := TableEvents(sc, LogOf(init), table), TableEvents(sc, c.batch, table);
      TableEventsConcat(sc, LogOf(init), c.batch, table);
      var log := before + here;
      assert log[0..|before|] == before && log[|before|..|log|] == here;
      StretchNeverRevived(pk, log, 0, |before|);
      StretchNeverRewritten(pk, log, 0, |before|);
      CalmLogIsFaithful(sc, init, table);
      StretchNeverRevived(pk, log, |before|, |log|);
      StretchNeverRewritten(pk, log, |before|, |log|);
      NeverRevivedDeletesLast(pk, here);
      NeverRewrittenOneVersion(pk, here);
      FaithfulMore(sc, cycles, table);
    }
  }

  /** Where every MERGE of a confirmed write takes the intended pick, it need not be calm: no revived key is enough. */
  lemma {:induction false} LastWinsLogIsFaithful(sc: Schema, cycles: seq<Cycle>, table: string)
    requires table in sc.tables
    requires forall i :: 0 <= i < |cycles| ==> AllTakeLast(cycles[i].final)
    requires NeverRevived(sc.tables[table].pk, TableEvents(sc, LogOf(cycles), table))
    ensures AllFaithful(sc, cycles, table)
  {
    hide NeverRevived, TableEvents, DeletesLast, OneVersion, AllTakeLast;
    if cycles == [] {
    } else {
      var pk, init, c := sc.tables[table].pk, cycles[..|cycles| - 1], cycles[|cycles| - 1];
      var before, here := TableEvents(sc, LogOf(init), table), TableEvents(sc, c.batch, table);
      TableEventsConcat(sc, LogOf(init), c.batch, table);
      var log := before + here;
      assert log[0..|before|] == before && log[|before|..|log|] == here;
      StretchNeverRevived(pk, log, 0, |before|);
      LastWinsLogIsFaithful(sc, init, table);
      StretchNeverRevived(pk, log, |before|, |log|);
      NeverRevivedDeletesLast(pk, here);
      FaithfulMore(sc, cycles, table);
    }
  }

  lemma FaithfulMore(sc: Schema, cycles: seq<Cycle>, table: string)
    requires table in sc.tables && cycles != []
    requires AllFaithful(sc, cycles[..|cycles| - 1], table) && Faithful(sc, cycles[|cycles| - 1], table)
    ensures AllFaithful(sc, cycles, table)
  {
    hide DeletesLast, OneVersion, TableEvents;
    var init := cycles[..|cycles| - 1];
    forall i | 0 <= i < |cycles| ensures Faithful(sc, cycles[i], table) {
      if i < |init| {
        assert init[i] == cycles[i] && Faithful(sc, init[i], table);
      }
    }
  }
}
