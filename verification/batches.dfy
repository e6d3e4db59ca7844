/**
 What one batch of events turns into: grouped by table, and for each table one MERGE of all
 upserts, then the DELETEs, then one history INSERT.
 */
module Batches {
  import opened Values
  import opened Tables
  import opened Statements
  import opened Events
  import opened Columns

  // ---- Table configuration ---------------------------------------------------------------

  /** The Snowflake names of a replicated table and the key columns of its MERGE and DELETE. */
  datatype TableConf = TableConf(current: string, history: string, pk: seq<string>)

  /** `_TABLE_MAP` with `_PK_COLS`, and `_PARTITION_PREFIXES` in iteration order. */
  datatype Schema = Schema(tables: map<string, TableConf>, prefixes: seq<(string, string)>) {
    /** The parent of a partition, or the table itself. */
    function NormalizeFrom(table: string, i: nat): string
      requires i <= |prefixes|
      decreases |prefixes| - i
    {
      if i == |prefixes| then table
      else if prefixes[i].0 <= table then prefixes[i].1
      else NormalizeFrom(table, i + 1)
    }

    function Normalize(table: string): string { NormalizeFrom(table, 0) }

    /** Snowflake names are all different, keys are not empty and replicated tables are no partitions. */
    ghost predicate Valid() {
      && (forall a, b :: a in tables && b in tables ==> tables[a].current != tables[b].history)
      && (forall a, b :: a in tables && b in tables && a != b ==>
            tables[a].current != tables[b].current && tables[a].history != tables[b].history)
      && (forall a :: a in tables ==> tables[a].pk != [] && Normalize(a) == a)
    }
  }

  /** The first prefix that fits a name gives its parent; a name that no prefix fits stays. */
  lemma {:induction false} FirstPrefixDecides(sc: Schema, table: string, i: nat)
    requires i <= |sc.prefixes|
    requires forall j :: 0 <= j < i ==> !(sc.prefixes[j].0 <= table)
    ensures i == |sc.prefixes| ==> sc.Normalize(table) == table
    ensures i < |sc.prefixes| && sc.prefixes[i].0 <= table ==> sc.Normalize(table) == sc.prefixes[i].1
  {
    PrefixesPassed(sc, table, i);
  }

  lemma {:induction false} PrefixesPassed(sc: Schema, table: string, i: nat)
    requires i <= |sc.prefixes|
    requires forall j :: 0 <= j < i ==> !(sc.prefixes[j].0 <= table)
    ensures sc.Normalize(table) == sc.NormalizeFrom(table, i)
  {
    if i > 0 {
      PrefixesPassed(sc, table, i - 1);
    }
  }

  const EXAMPLE_SCHEMA := Schema(
    map[
      "customers" := TableConf("CUSTOMERS", "CUSTOMERS_HISTORY", ["ID", "TENANT_ID"]),
      "customer_devices" := TableConf("CUSTOMER_DEVICES", "CUSTOMER_DEVICES_HISTORY", ["ID"])
    ],
    [("customers_", "customers")])

  lemma ExampleSchemaValid()
    ensures EXAMPLE_SCHEMA.Valid()
  {
    ExampleNamesApart();
    ExampleNormal();
  }

  lemma ExampleNamesApart()
    ensures forall a, b :: a in EXAMPLE_SCHEMA.tables && b in EXAMPLE_SCHEMA.tables ==>
              EXAMPLE_SCHEMA.tables[a].current != EXAMPLE_SCHEMA.tables[b].history
    ensures forall a, b :: a in EXAMPLE_SCHEMA.tables && b in EXAMPLE_SCHEMA.tables && a != b ==>
              EXAMPLE_SCHEMA.tables[a].current != EXAMPLE_SCHEMA.tables[b].current
    ensures forall a, b :: a in EXAMPLE_SCHEMA.tables && b in EXAMPLE_SCHEMA.tables && a != b ==>
              EXAMPLE_SCHEMA.tables[a].history != EXAMPLE_SCHEMA.tables[b].history
  {
    assert |"CUSTOMERS"| == 9 && |"CUSTOMERS_HISTORY"| == 17;
    assert |"CUSTOMER_DEVICES"| == 16 && |"CUSTOMER_DEVICES_HISTORY"| == 24;
  }

  lemma ExampleNormal()
    ensures EXAMPLE_SCHEMA.Normalize("customers") == "customers"
    ensures EXAMPLE_SCHEMA.Normalize("customer_devices") == "customer_devices"
  {
    assert "customer_devices"[8] == '_' && "customers_"[8] == 's';
    assert EXAMPLE_SCHEMA.NormalizeFrom("customers", 1) == "customers";
    assert EXAMPLE_SCHEMA.NormalizeFrom("customer_devices", 1) == "customer_devices";
  }

  /** Every partition of `customers` is an event of `customers`, and no other name changes. */
  lemma ExamplePartitions(table: string)
    ensures "customers_" <= table ==> EXAMPLE_SCHEMA.Normalize(table) == "customers"
    ensures !("customers_" <= table) ==> EXAMPLE_SCHEMA.Normalize(table) == table
    ensures "customers" in EXAMPLE_SCHEMA.tables && EXAMPLE_SCHEMA.tables["customers"].current == "CUSTOMERS"
  {
    if "customers_" <= table {
      FirstPrefixDecides(EXAMPLE_SCHEMA, table, 0);
    } else {
      FirstPrefixDecides(EXAMPLE_SCHEMA, table, 1);
    }
  }

  // ---- Rows and keys of a table's events -----------------------------------------------------

  /** `e.op in ("c", "u")` and `e.after` is truthy. */
  predicate HasUpsert(e: ChangeEvent) {
    !e.op.Delete? && e.after.Some? && e.after.value.keys != []
  }

  function UpsertRow(e: ChangeEvent): Dict
    requires HasUpsert(e)
  {
    RowToSf(e.after.value)
  }

  function UpsertDicts(es: seq<ChangeEvent>): seq<Dict> {
    if es == [] then []
    else UpsertDicts(es[..|es| - 1]) + (if HasUpsert(es[|es| - 1]) then [UpsertRow(es[|es| - 1])] else [])
  }

  /** The key a DELETE binds: `row.get(c)` over `_row_to_sf(e.before or {})`. */
  function DeleteKeyOf(pk: seq<string>, e: ChangeEvent): Key {
    KeyOf(pk, RowToSf(if e.before.Some? then e.before.value else EMPTY_DICT).at)
  }

  function DeleteKeys(pk: seq<string>, es: seq<ChangeEvent>): seq<Key> {
    if es == [] then []
    else DeleteKeys(pk, es[..|es| - 1]) + (if es[|es| - 1].op.Delete? then [DeleteKeyOf(pk, es[|es| - 1])] else [])
  }

  function HistoryData(e: ChangeEvent): Option<Dict> {
    if e.op.Delete? then e.before else e.after
  }

  function HistoryDict(e: ChangeEvent): Dict
    requires HistoryData(e).Some?
  {
    Put(Put(Put(RowToSf(HistoryData(e).value),
      "_CDC_OP", Text(OpLabel(e.op))),
      "_CDC_LSN", Number(e.lsn)),
      "_CDC_TS", Instant(e.tsUs))
  }

  function HistoryDicts(es: seq<ChangeEvent>): seq<Dict> {
    if es == [] then []
    else HistoryDicts(es[..|es| - 1])
         + (if HistoryData(es[|es| - 1]).Some? then [HistoryDict(es[|es| - 1])] else [])
  }

  /** Rows bound with the first row's columns. */
  function AsFirst(dicts: seq<Dict>): Table {
    if dicts == [] then [] else Projected(Rows(dicts), dicts[0].keys)
  }

  /** Rows share their columns: the hypothesis under which the first row's columns fit all. */
  predicate SameColumns(cols: set<string>, dicts: seq<Dict>) {
    forall i :: 0 <= i < |dicts| ==> dicts[i].at.Keys == cols
  }

  lemma AsFirstSameColumns(cols: set<string>, dicts: seq<Dict>)
    requires SameColumns(cols, dicts)
    ensures AsFirst(dicts) == Rows(dicts)
  {
    forall i | 0 <= i < |dicts| ensures Project(dicts[i].at, dicts[0].keys) == dicts[i].at {
      assert dicts[i].at.Keys == dicts[0].at.Keys;
      ProjectOwnKeys(dicts[i], dicts[0].keys);
    }
  }

  // ---- The statements of one table --------------------------------------------------------------

  /** The MERGE of some rows, bound with the first row's columns. */
  function MergeCall(conf: TableConf, dicts: seq<Dict>): Call
    requires dicts != []
  {
    Call(MergeSql(conf.current, conf.pk, Template(dicts[0].keys, |dicts|)), Flatten(Rows(dicts), dicts[0].keys))
  }

  function MergeCalls(conf: TableConf, es: seq<ChangeEvent>): seq<Call> {
    var dicts := UpsertDicts(es);
    if dicts == [] then [] else [MergeCall(conf, dicts)]
  }

  function DeleteCalls(conf: TableConf, es: seq<ChangeEvent>): seq<Call>
  {
    var keys := DeleteKeys(conf.pk, es);
    seq(|keys|, i requires 0 <= i < |keys| => Call(DeleteSql(conf.current, conf.pk), keys[i]))
  }

  function HistoryCalls(conf: TableConf, es: seq<ChangeEvent>): seq<Call>
  {
    var dicts := HistoryDicts(es);
    if dicts == [] then []
    else [Call(InsertSql(conf.history, Template(dicts[0].keys, |dicts|)), Flatten(Rows(dicts), dicts[0].keys))]
  }

  function CurrentCalls(conf: TableConf, es: seq<ChangeEvent>): seq<Call>
  {
    MergeCalls(conf, es) + DeleteCalls(conf, es)
  }

  function TableCalls(conf: TableConf, es: seq<ChangeEvent>): seq<Call>
  {
    CurrentCalls(conf, es) + HistoryCalls(conf, es)
  }

  // ---- The statements of a batch -------------------------------------------------------------------

  predicate AllMapped(sc: Schema, events: seq<ChangeEvent>) {
    forall i :: 0 <= i < |events| ==> sc.Normalize(events[i].table) in sc.tables
  }

  function TableEvents(sc: Schema, events: seq<ChangeEvent>, table: string): seq<ChangeEvent> {
    if events == [] then []
    else TableEvents(sc, events[..|events| - 1], table)
         + (if sc.Normalize(events[|events| - 1].table) == table then [events[|events| - 1]] else [])
  }

  /** The tables of a batch in the order of their first event: the key order of `by_table`. */
  function TableOrder(sc: Schema, events: seq<ChangeEvent>): seq<string> {
    if events == [] then []
    else
      var rest, t := TableOrder(sc, events[..|events| - 1]), sc.Normalize(events[|events| - 1].table);
      if t in rest then rest else rest + [t]
  }

  predicate NamesMapped(sc: Schema, tables: seq<string>) {
    forall i :: 0 <= i < |tables| ==> tables[i] in sc.tables
  }

  function CallsFor(sc: Schema, tables: seq<string>, events: seq<ChangeEvent>): seq<Call>
    requires NamesMapped(sc, tables)
  {
    if tables == [] then []
    else
      var t := tables[|tables| - 1];
      CallsFor(sc, tables[..|tables| - 1], events) + TableCalls(sc.tables[t], TableEvents(sc, events, t))
  }

  lemma {:induction false} OrderMapped(sc: Schema, events: seq<ChangeEvent>)
    requires AllMapped(sc, events)
    ensures NamesMapped(sc, TableOrder(sc, events))
  {
    if events == [] {
    } else {
      OrderMapped(sc, events[..|events| - 1]);
    }
  }

  function Program(sc: Schema, events: seq<ChangeEvent>): seq<Call>
    requires AllMapped(sc, events)
  {
    OrderMapped(sc, events);
    CallsFor(sc, TableOrder(sc, events), events)
  }

  // ---- Each table's share of the program --------------------------------------------------------------

  lemma {:induction false} OrderHas(sc: Schema, events: seq<ChangeEvent>, table: string)
    ensures table in TableOrder(sc, events) <==> TableEvents(sc, events, table) != []
    ensures Distinct(TableOrder(sc, events))
  {
    hide Schema.Normalize;
    if events == [] {
    } else {
      OrderHas(sc, events[..|events| - 1], table);
    }
  }

  /** The place of a table's first event. */
  function FirstOf(sc: Schema, events: seq<ChangeEvent>, table: string): (i: nat)
    requires exists j :: 0 <= j < |events| && sc.Normalize(events[j].table) == table
    ensures i < |events| && sc.Normalize(events[i].table) == table
    ensures forall j :: 0 <= j < i ==> sc.Normalize(events[j].table) != table
  {
    if sc.Normalize(events[0].table) == table then 0 else FirstOf(sc, events[1..], table) + 1
  }

  /** And they come in the order of their first events. */
  lemma {:induction false} OrderIsFirstSeen(sc: Schema, events: seq<ChangeEvent>, i: nat, j: nat)
    requires i < j < |TableOrder(sc, events)|
    ensures exists n :: 0 <= n < |events| && sc.Normalize(events[n].table) == TableOrder(sc, events)[i]
    ensures exists n :: 0 <= n < |events| && sc.Normalize(events[n].table) == TableOrder(sc, events)[j]
    ensures FirstOf(sc, events, TableOrder(sc, events)[i]) < FirstOf(sc, events, TableOrder(sc, events)[j])
  {
    hide Schema.Normalize, FirstOf;
    SeenBefore(sc, events, i);
    SeenBefore(sc, events, j);
    var n := |events| - 1;
    var init, e := events[..n], events[n];
    var before, order := TableOrder(sc, init), TableOrder(sc, events);
    assert before <= order && events == init + [e];
    SeenBefore(sc, init, i);
    FirstGrows(sc, init, e, before[i]);
    if j < |before| {
      OrderIsFirstSeen(sc, init, i, j);
      FirstGrows(sc, init, e, before[j]);
    } else {
      NotSeenBefore(sc, init, order[j]);
      FirstIsLast(sc, init, e, order[j]);
    }
  }

  lemma FirstIsLast(sc: Schema, init: seq<ChangeEvent>, e: ChangeEvent, table: string)
    requires forall n :: 0 <= n < |init| ==> sc.Normalize(init[n].table) != table
    requires exists j :: 0 <= j < |init + [e]| && sc.Normalize((init + [e])[j].table) == table
    ensures FirstOf(sc, init + [e], table) == |init|
  {
    hide Schema.Normalize;
    var b := FirstOf(sc, init + [e], table);
    assert forall n :: 0 <= n < |init| ==> (init + [e])[n] == init[n];
    hide FirstOf;
  }

  lemma {:induction false} SeenBefore(sc: Schema, events: seq<ChangeEvent>, i: nat)
    requires i < |TableOrder(sc, events)|
    ensures exists n :: 0 <= n < |events| && sc.Normalize(events[n].table) == TableOrder(sc, events)[i]
  {
    hide Schema.Normalize;
    var n := |events| - 1;
    if i < |TableOrder(sc, events[..n])| {
      SeenBefore(sc, events[..n], i);
      var a :| 0 <= a < n && sc.Normalize(events[..n][a].table) == TableOrder(sc, events)[i];
      assert events[..n][a] == events[a];
    } else {
      assert sc.Normalize(events[n].table) == TableOrder(sc, events)[i];
    }
  }

  lemma {:induction false} NotSeenBefore(sc: Schema, events: seq<ChangeEvent>, table: string)
    requires table !in TableOrder(sc, events)
    ensures forall n :: 0 <= n < |events| ==> sc.Normalize(events[n].table) != table
  {
    hide Schema.Normalize;
    if events != [] {
      NotSeenBefore(sc, events[..|events| - 1], table);
      assert forall n :: 0 <= n < |events| - 1 ==> events[..|events| - 1][n] == events[n];
    }
  }

  lemma FirstGrows(sc: Schema, init: seq<ChangeEvent>, e: ChangeEvent, table: string)
    requires exists j :: 0 <= j < |init| && sc.Normalize(init[j].table) == table
    ensures exists j :: 0 <= j < |init + [e]| && sc.Normalize((init + [e])[j].table) == table
    ensures FirstOf(sc, init + [e], table) == FirstOf(sc, init, table)
  {
    hide Schema.Normalize;
    var j :| 0 <= j < |init| && sc.Normalize(init[j].table) == table;
    assert (init + [e])[j] == init[j];
    var a, b := FirstOf(sc, init, table), FirstOf(sc, init + [e], table);
    assert (init + [e])[a] == init[a];
    if b < |init| {
      assert (init + [e])[b] == init[b];
    }
    hide FirstOf;
  }

  lemma TableCallsOn(conf: TableConf, es: seq<ChangeEvent>, name: string)
    requires conf.current != conf.history
    ensures CallsOn(TableCalls(conf, es), name)
         == if name == conf.current then CurrentCalls(conf, es)
            else if name == conf.history then HistoryCalls(conf, es)
            else []
  {
    hide *;
    var cur, hist := CurrentCalls(conf, es), HistoryCalls(conf, es);
    TableCallsParts(conf, es);
    CallsOnConcat(cur, hist, name);
    CallsAllOn(cur, name);
    CallsAllOn(hist, name);
  }

  lemma TableCallsParts(conf: TableConf, es: seq<ChangeEvent>)
    ensures TableCalls(conf, es) == CurrentCalls(conf, es) + HistoryCalls(conf, es)
    ensures forall i :: 0 <= i < |CurrentCalls(conf, es)| ==> CurrentCalls(conf, es)[i].sql.table == conf.current
    ensures forall i :: 0 <= i < |HistoryCalls(conf, es)| ==> HistoryCalls(conf, es)[i].sql.table == conf.history
  {
    hide UpsertDicts, HistoryDicts, DeleteKeys, Template, Flatten, Rows;
  }

  lemma {:induction false} CallsForOn(sc: Schema, tables: seq<string>, events: seq<ChangeEvent>, table: string)
    requires sc.Valid() && NamesMapped(sc, tables) && Distinct(tables) && table in sc.tables
    ensures CallsOn(CallsFor(sc, tables, events), sc.tables[table].current)
         == if table in tables then CurrentCalls(sc.tables[table], TableEvents(sc, events, table)) else []
    ensures CallsOn(CallsFor(sc, tables, events), sc.tables[table].history)
         == if table in tables then HistoryCalls(sc.tables[table], TableEvents(sc, events, table)) else []
  {
    hide TableCalls, CurrentCalls, HistoryCalls, TableEvents;
    if tables == [] {
    } else {
      var init, t := tables[..|tables| - 1], tables[|tables| - 1];
      CallsForOn(sc, init, events, table);
      var es, conf := TableEvents(sc, events, t), sc.tables[table];
      assert sc.tables[t].current != sc.tables[t].history;
      TableCallsOn(sc.tables[t], es, conf.current);
      TableCallsOn(sc.tables[t], es, conf.history);
      CallsOnConcat(CallsFor(sc, init, events), TableCalls(sc.tables[t], es), conf.current);
      CallsOnConcat(CallsFor(sc, init, events), TableCalls(sc.tables[t], es), conf.history);
    }
  }

  /** On each table the program of a batch is the program of that table's own events. */
  lemma {:induction false} ProgramOn(sc: Schema, events: seq<ChangeEvent>, table: string)
    requires sc.Valid() && AllMapped(sc, events) && table in sc.tables
    ensures CallsOn(Program(sc, events), sc.tables[table].current)
         == CurrentCalls(sc.tables[table], TableEvents(sc, events, table))
    ensures CallsOn(Program(sc, events), sc.tables[table].history)
         == HistoryCalls(sc.tables[table], TableEvents(sc, events, table))
  {
    OrderMapped(sc, events);
    OrderHas(sc, events, table);
    CallsForOn(sc, TableOrder(sc, events), events, table);
  }

  lemma {:induction false} TableEventsConcat(sc: Schema, a: seq<ChangeEvent>, b: seq<ChangeEvent>, table: string)
    ensures TableEvents(sc, a + b, table) == TableEvents(sc, a, table) + TableEvents(sc, b, table)
  {
    hide Schema.Normalize;
    if b == [] {
      assert a + b == a;
    } else {
      assert a + b == (a + b[..|b| - 1]) + [b[|b| - 1]];
      assert (a + b)[..|a + b| - 1] == a + b[..|b| - 1];
      TableEventsConcat(sc, a, b[..|b| - 1], table);
    }
  }

  lemma {:induction false} DeleteKeysConcat(pk: seq<string>, a: seq<ChangeEvent>, b: seq<ChangeEvent>)
    ensures DeleteKeys(pk, a + b) == DeleteKeys(pk, a) + DeleteKeys(pk, b)
  {
    hide DeleteKeyOf;
    if b == [] {
      assert a + b == a;
    } else {
      assert a + b == (a + b[..|b| - 1]) + [b[|b| - 1]];
      assert (a + b)[..|a + b| - 1] == a + b[..|b| - 1];
      DeleteKeysConcat(pk, a, b[..|b| - 1]);
    }
  }

  lemma {:induction false} UpsertDictsConcat(a: seq<ChangeEvent>, b: seq<ChangeEvent>)
    ensures UpsertDicts(a + b) == UpsertDicts(a) + UpsertDicts(b)
  {
    hide UpsertRow, HasUpsert;
    if b == [] {
      assert a + b == a;
    } else {
      assert a + b == (a + b[..|b| - 1]) + [b[|b| - 1]];
      assert (a + b)[..|a + b| - 1] == a + b[..|b| - 1];
      UpsertDictsConcat(a, b[..|b| - 1]);
    }
  }

  lemma {:induction false} HistoryDictsConcat(a: seq<ChangeEvent>, b: seq<ChangeEvent>)
    ensures HistoryDicts(a + b) == HistoryDicts(a) + HistoryDicts(b)
  {
    hide HistoryDict, HistoryData;
    if b == [] {
      assert a + b == a;
    } else {
      assert a + b == (a + b[..|b| - 1]) + [b[|b| - 1]];
      assert (a + b)[..|a + b| - 1] == a + b[..|b| - 1];
      HistoryDictsConcat(a, b[..|b| - 1]);
    }
  }

  // ---- What a table's statements do to one key ------------------------------------------------------------

  /** At most one MERGE, first, then DELETEs by the same key columns. */
  ghost predicate MergeThenDeletes(pk: seq<string>, ops: seq<Done>) {
    forall i :: 0 <= i < |ops| ==>
      && CanTake(ops[i])
      && (ops[i].call.sql.DeleteSql? || (i == 0 && ops[i].call.sql.MergeSql?))
      && ops[i].call.sql.pk == pk
  }

  function Picked(ops: seq<Done>): Table {
    if ops != [] && ops[0].call.sql.MergeSql? then ops[0].picked else []
  }

  function DeletedBy(ops: seq<Done>): seq<Key> {
    if ops == [] then []
    else DeletedBy(ops[..|ops| - 1])
         + (if ops[|ops| - 1].call.sql.DeleteSql? then [ops[|ops| - 1].call.params] else [])
  }

  /** Rows of key `k` after the MERGE and the DELETEs: deleted keys are gone, the others are merged. */
  function BatchAt(pk: seq<string>, rows: Table, picked: Table, deleted: seq<Key>, k: Key): Table {
    if !Complete(k) then rows + Slice(pk, picked, k)
    else if k in deleted then []
    else MergeAt(pk, rows, Slice(pk, picked, k))
  }

  lemma {:induction false} RunBatchAt(pk: seq<string>, t: Table, ops: seq<Done>, k: Key)
    requires MergeThenDeletes(pk, ops) && AllLegal(ops)
    ensures Slice(pk, RunTable(t, ops), k) == BatchAt(pk, Slice(pk, t, k), Picked(ops), DeletedBy(ops), k)
  {
    if ops == [] {
    } else {
      var init, op := ops[..|ops| - 1], ops[|ops| - 1];
      RunBatchAt(pk, t, init, k);
      if op.call.sql.MergeSql? {
        assert init == [];
        SliceMerge(pk, t, op.picked, k);
      } else {
        SliceDelete(pk, RunTable(t, init), op.call.params, k);
      }
    }
  }
}
