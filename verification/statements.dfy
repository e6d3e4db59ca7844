/**
 SQL statements as structured data: a template with placeholders, the flat parameter list
 handed to the connector, and what executing the pair does to the warehouse.
 */
module Statements {
  import opened Values
  import opened Tables

  /** A `source` lists, for each `SELECT` of a UNION ALL (or each VALUES row), what its placeholders fill. */
  datatype Sql =
    | MergeSql(table: string, pk: seq<string>, source: seq<seq<string>>)
    | DeleteSql(table: string, pk: seq<string>)
    | InsertSql(table: string, source: seq<seq<string>>)

  datatype Call = Call(sql: Sql, params: seq<Value>)

  // ---- Templates, flattening and binding -------------------------------------------------

  function Template(cols: seq<string>, n: nat): seq<seq<string>> { seq(n, _ => cols) }

  function Placeholders(source: seq<seq<string>>): nat {
    if source == [] then 0 else Placeholders(source[..|source| - 1]) + |source[|source| - 1]|
  }

  function Params(r: Row, cols: seq<string>): (vs: seq<Value>)
    ensures |vs| == |cols|
  {
    seq(|cols|, j requires 0 <= j < |cols| => Get(r, cols[j]))
  }

  /** `[v for row in rows for v in [row.get(c) for c in all_cols]]` */
  function Flatten(rows: seq<Row>, cols: seq<string>): seq<Value> {
    if rows == [] then [] else Flatten(rows[..|rows| - 1], cols) + Params(rows[|rows| - 1], cols)
  }

  function BindRow(names: seq<string>, params: seq<Value>): Row
    requires |names| == |params|
  {
    if names == [] then map[]
    else BindRow(names[..|names| - 1], params[..|params| - 1])[names[|names| - 1] := params[|params| - 1]]
  }

  /** The connector fills the placeholders from left to right. */
  function Bind(source: seq<seq<string>>, params: seq<Value>): seq<Row>
    requires |params| == Placeholders(source)
  {
    if source == [] then []
    else
      var last := source[|source| - 1];
      var cut := |params| - |last|;
      Bind(source[..|source| - 1], params[..cut]) + [BindRow(last, params[cut..])]
  }

  /** The rows that dictionaries stand for. */
  function Rows(dicts: seq<Dict>): Table {
    seq(|dicts|, i requires 0 <= i < |dicts| => dicts[i].at)
  }

  function Projected(rows: seq<Row>, cols: seq<string>): seq<Row> {
    seq(|rows|, i requires 0 <= i < |rows| => Project(rows[i], cols))
  }

  lemma {:induction false} BindRowExact(r: Row, cols: seq<string>)
    ensures BindRow(cols, Params(r, cols)) == Project(r, cols)
  {
    if cols == [] {
    } else {
      var init := cols[..|cols| - 1];
      BindRowExact(r, init);
      assert Params(r, cols)[..|cols| - 1] == Params(r, init);
      assert cols == init + [cols[|cols| - 1]];
    }
  }

  lemma BindSnoc(source: seq<seq<string>>, params: seq<Value>, names: seq<string>, more: seq<Value>)
    requires |params| == Placeholders(source) && |more| == |names|
    ensures Placeholders(source + [names]) == |params + more|
    ensures Bind(source + [names], params + more) == Bind(source, params) + [BindRow(names, more)]
  {
    assert (source + [names])[..|source|] == source;
    assert (params + more)[..|params|] == params && (params + more)[|params|..] == more;
  }

  /** As many placeholders as parameters, and row `i` binds exactly the values of row `i`. */
  lemma {:induction false} BindExact(rows: seq<Row>, cols: seq<string>)
    ensures |Flatten(rows, cols)| == Placeholders(Template(cols, |rows|))
    ensures Bind(Template(cols, |rows|), Flatten(rows, cols)) == Projected(rows, cols)
  {
    hide Project, BindRow, Params;
    if rows == [] {
    } else {
      var init, last := rows[..|rows| - 1], rows[|rows| - 1];
      BindExact(init, cols);
      BindSnoc(Template(cols, |init|), Flatten(init, cols), cols, Params(last, cols));
      assert Template(cols, |rows|) == Template(cols, |init|) + [cols];
      BindRowExact(last, cols);
      assert Projected(rows, cols) == Projected(init, cols) + [Project(last, cols)];
    }
  }

  /** Parameter `i * |cols| + j` is row `i`'s value for column `j`. */
  lemma {:induction false} FlattenAt(rows: seq<Row>, cols: seq<string>, i: nat, j: nat)
    requires i < |rows| && j < |cols|
    ensures |Flatten(rows, cols)| == |rows| * |cols|
    ensures 0 <= i * |cols| + j < |rows| * |cols|
    ensures Flatten(rows, cols)[i * |cols| + j] == Get(rows[i], cols[j])
  {
    var init, p := rows[..|rows| - 1], i * |cols| + j;
    FlattenLength(init, cols);
    FlattenLength(rows, cols);
    IndexInRange(i, |rows|, j, |cols|);
    assert Flatten(rows, cols) == Flatten(init, cols) + Params(rows[|rows| - 1], cols);
    if i < |init| {
      FlattenAt(init, cols, i, j);
      assert Flatten(rows, cols)[p] == Flatten(init, cols)[p];
    } else {
      assert Flatten(rows, cols)[p] == Params(rows[i], cols)[j];
    }
  }

  lemma {:induction false} IndexInRange(i: nat, n: nat, j: nat, m: nat)
    requires i < n && j < m
    ensures 0 <= i * m + j < n * m
  {
    assert n * m == (n - 1) * m + m;
    if i < n - 1 {
      IndexInRange(i, n - 1, j, m);
    }
  }

  lemma {:induction false} FlattenLength(rows: seq<Row>, cols: seq<string>)
    ensures |Flatten(rows, cols)| == |rows| * |cols|
  {
    if rows == [] {
    } else {
      FlattenLength(rows[..|rows| - 1], cols);
      assert |rows| * |cols| == (|rows| - 1) * |cols| + |cols|;
    }
  }

  /** How one `cur.execute` may end. */
  datatype Fate = Succeeds | FailsWithoutEffect | FailsAfterEffect

  // ---- Execution -------------------------------------------------------------------------------

  /** All tables of the warehouse, current and history, by Snowflake name. */
  type Db = map<string, Table>

  function At(db: Db, name: string): Table { if name in db then db[name] else [] }

  /** A statement that took effect, with the rows its QUALIFY kept when it is a MERGE. */
  datatype Done = Done(call: Call, picked: Table)

  predicate Legal(call: Call) {
    match call.sql
    case DeleteSql(_, pk) => |call.params| == |pk|
    case _ => |call.params| == Placeholders(call.sql.source)
  }

  function BoundRows(call: Call): seq<Row>
    requires Legal(call) && !call.sql.DeleteSql?
  {
    Bind(call.sql.source, call.params)
  }

  ghost predicate CanTake(op: Done) {
    && Legal(op.call)
    && (op.call.sql.MergeSql? ==> IsPick(op.call.sql.pk, BoundRows(op.call), op.picked))
  }

  ghost predicate TakesLast(op: Done) {
    op.call.sql.MergeSql? && Legal(op.call) ==> op.picked == LastWins(op.call.sql.pk, BoundRows(op.call))
  }

  function Effect(t: Table, op: Done): Table
    requires Legal(op.call)
  {
    match op.call.sql
    case MergeSql(_, pk, _) => Merge(pk, t, op.picked)
    case DeleteSql(_, pk) => DeleteKey(pk, t, op.call.params)
    case InsertSql(_, _) => t + BoundRows(op.call)
  }

  predicate AllLegal(ops: seq<Done>) { forall i :: 0 <= i < |ops| ==> Legal(ops[i].call) }

  function RunTable(t: Table, ops: seq<Done>): Table
    requires AllLegal(ops)
  {
    if ops == [] then t else Effect(RunTable(t, ops[..|ops| - 1]), ops[|ops| - 1])
  }

  function Exec(db: Db, op: Done): Db
    requires Legal(op.call)
  {
    db[op.call.sql.table := Effect(At(db, op.call.sql.table), op)]
  }

  function Run(db: Db, ops: seq<Done>): Db
    requires AllLegal(ops)
  {
    if ops == [] then db else Exec(Run(db, ops[..|ops| - 1]), ops[|ops| - 1])
  }

  lemma {:induction false} RunConcat(db: Db, a: seq<Done>, b: seq<Done>)
    requires AllLegal(a) && AllLegal(b)
    ensures Run(db, a + b) == Run(Run(db, a), b)
  {
    if b == [] {
      assert a + b == a;
    } else {
      assert a + b == (a + b[..|b| - 1]) + [b[|b| - 1]];
      assert (a + b)[..|a + b| - 1] == a + b[..|b| - 1];
      RunConcat(db, a, b[..|b| - 1]);
    }
  }

  lemma {:induction false} RunTableConcat(t: Table, a: seq<Done>, b: seq<Done>)
    requires AllLegal(a) && AllLegal(b)
    ensures RunTable(t, a + b) == RunTable(RunTable(t, a), b)
  {
    if b == [] {
      assert a + b == a;
    } else {
      assert a + b == (a + b[..|b| - 1]) + [b[|b| - 1]];
      assert (a + b)[..|a + b| - 1] == a + b[..|b| - 1];
      RunTableConcat(t, a, b[..|b| - 1]);
    }
  }

  // ---- Looking at one table -----------------------------------------------------------------------

  function CallsOn(calls: seq<Call>, name: string): seq<Call> {
    if calls == [] then []
    else if calls[|calls| - 1].sql.table == name then CallsOn(calls[..|calls| - 1], name) + [calls[|calls| - 1]]
    else CallsOn(calls[..|calls| - 1], name)
  }

  function OpsOn(ops: seq<Done>, name: string): seq<Done> {
    if ops == [] then []
    else if ops[|ops| - 1].call.sql.table == name then OpsOn(ops[..|ops| - 1], name) + [ops[|ops| - 1]]
    else OpsOn(ops[..|ops| - 1], name)
  }

  /** These are the given calls, in order, all taken with an allowed pick. */
  ghost predicate Resolves(ops: seq<Done>, calls: seq<Call>) {
    && |ops| == |calls|
    && (forall i :: 0 <= i < |ops| ==> ops[i].call == calls[i] && CanTake(ops[i]))
  }

  /** The first of the given calls, all taken: what is left of a write that stopped. */
  ghost predicate Part(ops: seq<Done>, calls: seq<Call>) {
    |ops| <= |calls| && Resolves(ops, calls[..|ops|])
  }

  lemma PartExtends(ops: seq<Done>, calls: seq<Call>, more: seq<Call>)
    requires Part(ops, calls)
    ensures Part(ops, calls + more)
  {
    assert (calls + more)[..|ops|] == calls[..|ops|];
  }

  lemma PartAppends(ops: seq<Done>, calls: seq<Call>, more: seq<Done>, rest: seq<Call>)
    requires Part(ops, calls) && |ops| == |calls| && Part(more, rest)
    ensures Part(ops + more, calls + rest)
  {
    hide CanTake;
    forall i | 0 <= i < |ops + more|
      ensures (ops + more)[i].call == (calls + rest)[i] && CanTake((ops + more)[i])
    {
      if i < |ops| {
        assert ops[i].call == calls[..|ops|][i];
      } else {
        assert more[i - |ops|].call == rest[..|more|][i - |ops|];
      }
    }
  }

  lemma ResolvedLegal(ops: seq<Done>, calls: seq<Call>)
    requires Resolves(ops, calls)
    ensures AllLegal(ops) && |ops| == |calls|
  {
  }

  lemma WholePart(ops: seq<Done>, calls: seq<Call>)
    requires Part(ops, calls) && |ops| == |calls|
    ensures Resolves(ops, calls)
  {
    assert calls[..|ops|] == calls;
  }

  ghost predicate AllTakeLast(ops: seq<Done>) {
    forall i :: 0 <= i < |ops| ==> TakesLast(ops[i])
  }

  /** A table only sees the statements that name it. */
  lemma {:induction false} RunAt(db: Db, ops: seq<Done>, name: string)
    requires AllLegal(ops)
    ensures AllLegal(OpsOn(ops, name))
    ensures At(Run(db, ops), name) == RunTable(At(db, name), OpsOn(ops, name))
  {
    if ops == [] {
    } else {
      RunAt(db, ops[..|ops| - 1], name);
      var sub, last := OpsOn(ops[..|ops| - 1], name), ops[|ops| - 1];
      assert (sub + [last])[..|sub|] == sub;
    }
  }

  lemma {:induction false} ResolvesOn(ops: seq<Done>, calls: seq<Call>, name: string)
    requires Resolves(ops, calls)
    ensures Resolves(OpsOn(ops, name), CallsOn(calls, name))
    ensures AllTakeLast(ops) ==> AllTakeLast(OpsOn(ops, name))
  {
    hide CanTake, TakesLast;
    if ops == [] {
    } else {
      var n := |ops| - 1;
      assert ops[n].call == calls[n];
      ResolvesOn(ops[..n], calls[..n], name);
    }
  }

  lemma {:induction false} CallsOnConcat(a: seq<Call>, b: seq<Call>, name: string)
    ensures CallsOn(a + b, name) == CallsOn(a, name) + CallsOn(b, name)
  {
    if b == [] {
      assert a + b == a;
    } else {
      assert a + b == (a + b[..|b| - 1]) + [b[|b| - 1]];
      assert (a + b)[..|a + b| - 1] == a + b[..|b| - 1];
      CallsOnConcat(a, b[..|b| - 1], name);
    }
  }

  lemma {:induction false} OpsOnConcat(a: seq<Done>, b: seq<Done>, name: string)
    ensures OpsOn(a + b, name) == OpsOn(a, name) + OpsOn(b, name)
  {
    if b == [] {
      assert a + b == a;
    } else {
      assert a + b == (a + b[..|b| - 1]) + [b[|b| - 1]];
      assert (a + b)[..|a + b| - 1] == a + b[..|b| - 1];
      OpsOnConcat(a, b[..|b| - 1], name);
    }
  }

  /** Stopping early leaves, on each table, a prefix of that table's statements. */
  lemma CallsOnPrefix(calls: seq<Call>, n: nat, name: string)
    requires n <= |calls|
    ensures CallsOn(calls[..n], name) <= CallsOn(calls, name)
  {
    assert calls == calls[..n] + calls[n..];
    CallsOnConcat(calls[..n], calls[n..], name);
  }

  lemma {:induction false} CallsAllOn(calls: seq<Call>, name: string)
    ensures (forall i :: 0 <= i < |calls| ==> calls[i].sql.table == name) ==> CallsOn(calls, name) == calls
    ensures (forall i :: 0 <= i < |calls| ==> calls[i].sql.table != name) ==> CallsOn(calls, name) == []
  {
    if calls == [] {
    } else {
      CallsAllOn(calls[..|calls| - 1], name);
      assert calls == calls[..|calls| - 1] + [calls[|calls| - 1]];
    }
  }

  /** No statement that can be taken gives a key a second row, whichever rows the MERGE picked. */
  lemma {:induction false} RunKeepsPkUnique(pk: seq<string>, t: Table, ops: seq<Done>)
    requires AllLegal(ops)
    requires forall i :: 0 <= i < |ops| ==> CanTake(ops[i]) && !ops[i].call.sql.InsertSql? && ops[i].call.sql.pk == pk
    requires PkUnique(pk, t)
    ensures PkUnique(pk, RunTable(t, ops))
  {
    if ops == [] {
    } else {
      var op := ops[|ops| - 1];
      RunKeepsPkUnique(pk, t, ops[..|ops| - 1]);
      var before := RunTable(t, ops[..|ops| - 1]);
      forall k | Complete(k) ensures |Slice(pk, RunTable(t, ops), k)| <= 1 {
        if op.call.sql.MergeSql? {
          SliceMerge(pk, before, op.picked, k);
        } else {
          SliceDelete(pk, before, op.call.params, k);
        }
      }
    }
  }
}
