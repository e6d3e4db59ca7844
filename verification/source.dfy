/**
 The replicated table against its source, PostgreSQL's own table. The source's meaning of a
 message is not the parser's: an unchanged TOAST column keeps its value, a Truncate empties the
 relation, and an update replaces the row of the old key. The module says exactly when replay
 mirrors the source.
 */
module Source {
  import opened Values
  import opened Tables
  import opened Statements
  import opened Events
  import opened Columns
  import opened Batches
  import opened Replay
  import opened Cycles
  import opened Utf8
  import opened Parser
  import opened Codec
  import opened Stream

  // ---- The source ------------------------------------------------------------------------------

  /** The replicated table that is looked at, its primary key and the columns of its rows. */
  datatype View = View(sc: Schema, table: string, pk: seq<string>, cols: set<string>) {
    ghost predicate Ok() { sc.Valid() && table in sc.tables && pk == sc.tables[table].pk }

    /** A relation of the source that is replicated to this table: the table itself or a partition. */
    predicate Concerns(s: ParserState, oid: nat) {
      oid in s.relations && sc.Normalize(s.relations[oid].table) == table
    }
  }

  /** A row of the source, under PostgreSQL's column names, and the relation that holds it. */
  datatype Stored = Stored(oid: nat, row: Dict)

  /** The source holds one row for each primary key. */
  type Snapshot = map<Key, Stored>

  /** A message of the server, with the relations it has announced before. */
  datatype Made = Made(context: ParserState, sent: Sent)

  function SfKey(pk: seq<string>, d: Dict): Key { KeyOf(pk, RowToSf(d).at) }

  function Names(columns: seq<Column>): seq<string> {
    seq(|columns|, i requires 0 <= i < |columns| => columns[i].name)
  }

  /** What a column holds after the change, at the source. */
  function TrueValue(c: ColumnData, name: string, was: Dict): Value {
    if c.UnchangedToast? then Get(was.at, name) else ColumnValue(c)
  }

  /** The row that a new tuple makes of the old row. */
  function TrueRow(columns: seq<Column>, t: seq<ColumnData>, was: Dict): Dict {
    if t == [] then EMPTY_DICT
    else
      var name := ColumnName(columns, |t| - 1);
      Put(TrueRow(columns, t[..|t| - 1], was), name, TrueValue(t[|t| - 1], name, was))
  }

  /** An update of this table. */
  predicate UpdatesHere(v: View, e: Made) { e.sent.msg.UpdateMsg? && v.Concerns(e.context, e.sent.msg.oid) }

  function ColumnsIn(v: View, e: Made): seq<Column>
    requires UpdatesHere(v, e)
  {
    e.context.relations[e.sent.msg.oid].columns
  }

  /** The key of the row that an update changes; without an old tuple the key has not changed. */
  function OldKey(v: View, e: Made): Key
    requires UpdatesHere(v, e)
  {
    var u := e.sent.msg;
    SfKey(v.pk, RowOf(ColumnsIn(v, e), if u.old_.Some? then u.old_.value.columns else u.new_))
  }

  function RowAt(m: Snapshot, k: Key): Dict { if k in m then m[k].row else EMPTY_DICT }

  /** The row after an update, at the source. */
  function Updated(v: View, m: Snapshot, e: Made): Dict
    requires UpdatesHere(v, e)
  {
    TrueRow(ColumnsIn(v, e), e.sent.msg.new_, RowAt(m, OldKey(v, e)))
  }

  function Change(v: View, m: Snapshot, e: Made): Snapshot {
    match e.sent.msg
    case InsertMsg(oid, new_) =>
      if !v.Concerns(e.context, oid) then m
      else
        var d := RowOf(e.context.relations[oid].columns, new_);
        m[SfKey(v.pk, d) := Stored(oid, d)]
    case UpdateMsg(oid, _, _) =>
      if !v.Concerns(e.context, oid) then m
      else (m - {OldKey(v, e)})[SfKey(v.pk, Updated(v, m, e)) := Stored(oid, Updated(v, m, e))]
    case DeleteMsg(oid, gone) =>
      if !v.Concerns(e.context, oid) then m
      else m - {SfKey(v.pk, RowOf(e.context.relations[oid].columns, gone.columns))}
    case TruncateMsg(_, oids) => map k | k in m && m[k].oid !in oids :: m[k]
    case _ => m
  }

  function After(v: View, m: Snapshot, made: seq<Made>): Snapshot {
    if made == [] then m else Change(v, After(v, m, made[..|made| - 1]), made[|made| - 1])
  }

  // ---- What the source can do --------------------------------------------------------------------

  /** A row of the table: its columns, and a key without NULL. */
  predicate RowFits(v: View, d: Dict) { TidyRow(v.pk, v.cols, RowToSf(d).at) }

  ghost predicate SnapshotOk(v: View, m: Snapshot) {
    forall k :: k in m ==> RowFits(v, m[k].row) && SfKey(v.pk, m[k].row) == k
  }

  /** A value for each column of the relation, and no two columns share a Snowflake column. */
  predicate TupleFits(columns: seq<Column>, t: seq<ColumnData>) { |t| == |columns| && Apart(Names(columns)) }

  /** A message the source can send when it holds `m`; the relations of changes have been announced. */
  ghost predicate Allowed(v: View, m: Snapshot, e: Made) {
    match e.sent.msg
    case InsertMsg(oid, new_) =>
      && oid in e.context.relations
      && (v.Concerns(e.context, oid) ==>
            var columns := e.context.relations[oid].columns;
            && TupleFits(columns, new_) && (forall i :: 0 <= i < |new_| ==> !new_[i].UnchangedToast?)
            && RowFits(v, RowOf(columns, new_)) && SfKey(v.pk, RowOf(columns, new_)) !in m)
    case UpdateMsg(oid, _, new_) =>
      && oid in e.context.relations
      && (v.Concerns(e.context, oid) ==>
            && TupleFits(ColumnsIn(v, e), new_) && OldKey(v, e) in m
            && RowFits(v, Updated(v, m, e))
            && (!ChangesKey(v, m, e) || SfKey(v.pk, Updated(v, m, e)) !in m))
    case DeleteMsg(oid, gone) =>
      && oid in e.context.relations
      && (v.Concerns(e.context, oid) ==> SfKey(v.pk, RowOf(e.context.relations[oid].columns, gone.columns)) in m)
    case _ => true
  }

  ghost predicate AllowedAll(v: View, m: Snapshot, made: seq<Made>) {
    forall n :: 0 <= n < |made| ==> Allowed(v, After(v, m, made[..n]), made[n])
  }

  // ---- What breaks the mirror -----------------------------------------------------------------------

  predicate ChangesKey(v: View, m: Snapshot, e: Made)
    requires UpdatesHere(v, e)
  {
    SfKey(v.pk, Updated(v, m, e)) != OldKey(v, e)
  }

  /** Column `i` is sent as unchanged TOAST, and the source's row has a value there. */
  predicate LosesColumn(v: View, m: Snapshot, e: Made, i: nat)
    requires UpdatesHere(v, e)
  {
    && i < |e.sent.msg.new_| && e.sent.msg.new_[i].UnchangedToast?
    && Get(RowAt(m, OldKey(v, e)).at, ColumnName(ColumnsIn(v, e), i)) != Null
  }

  predicate LosesToast(v: View, m: Snapshot, e: Made)
    requires UpdatesHere(v, e)
  {
    exists i: nat :: i < |e.sent.msg.new_| && LosesColumn(v, m, e, i)
  }

  /**
   An update that changes the key, an update with an unchanged TOAST column whose value is not NULL,
   or a Truncate that removes a row.
   */
  predicate Breaks(v: View, m: Snapshot, e: Made) {
    match e.sent.msg
    case UpdateMsg(oid, _, _) => v.Concerns(e.context, oid) && (ChangesKey(v, m, e) || LosesToast(v, m, e))
    case TruncateMsg(_, oids) => exists k :: k in m && m[k].oid in oids
    case _ => false
  }

  predicate NothingBreaks(v: View, m: Snapshot, made: seq<Made>) {
    forall n :: 0 <= n < |made| ==> !Breaks(v, After(v, m, made[..n]), made[n])
  }

  // ---- What the service makes of the messages ----------------------------------------------------------

  /** The event of one message, when it is one of this table. */
  function ShareOne(v: View, e: Made): seq<ChangeEvent> {
    match Denotes(e.context, e.sent.msg, e.sent.lsn).1
    case Some(event) => if v.sc.Normalize(event.table) == v.table then [event.(table := v.table)] else []
    case None => []
  }

  function Share(v: View, made: seq<Made>): seq<ChangeEvent> {
    if made == [] then [] else Share(v, made[..|made| - 1]) + ShareOne(v, made[|made| - 1])
  }

  /** The table holds exactly the rows of the source, each once, converted. */
  ghost predicate Mirrors(pk: seq<string>, t: Table, m: Snapshot) {
    forall k :: Slice(pk, t, k) == Shown(m, k)
  }

  /** What the table should hold under a key. */
  function Shown(m: Snapshot, k: Key): Table { if k in m then [RowToSf(m[k].row).at] else [] }

  lemma MirrorsAt(pk: seq<string>, t: Table, m: Snapshot, k: Key)
    requires Mirrors(pk, t, m)
    ensures Slice(pk, t, k) == Shown(m, k)
  {
  }

  // ---- Rows as sent and as they are ------------------------------------------------------------------------

  lemma {:induction false} DecodedIsTrueOfNothing(columns: seq<Column>, t: seq<ColumnData>)
    ensures RowOf(columns, t) == TrueRow(columns, t, EMPTY_DICT)
  {
    hide Put, ColumnName, Chars;
    if t == [] {
    } else {
      DecodedIsTrueOfNothing(columns, t[..|t| - 1]);
    }
  }

  /** Where every unchanged TOAST column is NULL, the tuple says the whole truth. */
  lemma {:induction false} TruthIsDecoded(columns: seq<Column>, t: seq<ColumnData>, was: Dict)
    requires forall i :: 0 <= i < |t| && t[i].UnchangedToast? ==> Get(was.at, ColumnName(columns, i)) == Null
    ensures TrueRow(columns, t, was) == RowOf(columns, t)
  {
    hide Put, ColumnName, Chars;
    if t == [] {
    } else {
      TruthIsDecoded(columns, t[..|t| - 1], was);
    }
  }

  lemma ApartAreDistinct(names: seq<string>)
    requires Apart(names)
    ensures Distinct(names)
  {
    hide PgColToSf;
  }

  lemma FreshName(columns: seq<Column>, d: Dict, n: nat)
    requires n < |columns| && Distinct(Names(columns)) && d.keys == Names(columns)[..n]
    ensures columns[n].name !in d.at
  {
    var names := Names(columns);
    forall i | 0 <= i < n ensures d.keys[i] != columns[n].name {
      assert names[i] != names[n];
    }
  }

  lemma {:induction false} TrueShape(columns: seq<Column>, t: seq<ColumnData>, was: Dict)
    requires |t| <= |columns| && Distinct(Names(columns))
    ensures TrueRow(columns, t, was).keys == Names(columns)[..|t|]
  {
    hide TrueValue, Put, Distinct;
    if t == [] {
    } else {
      var n := |t| - 1;
      var d := TrueRow(columns, t[..n], was);
      TrueShape(columns, t[..n], was);
      FreshName(columns, d, n);
      PutNewKey(d, columns[n].name, TrueValue(t[n], columns[n].name, was));
      assert Names(columns)[..|t|] == Names(columns)[..n] + [columns[n].name];
    }
  }

  lemma {:induction false} TrueAt(columns: seq<Column>, t: seq<ColumnData>, was: Dict, i: nat)
    requires |t| <= |columns| && Distinct(Names(columns)) && i < |t|
    ensures var d := TrueRow(columns, t, was);
            columns[i].name in d.at && d.at[columns[i].name] == TrueValue(t[i], columns[i].name, was)
  {
    hide TrueValue, Put, Distinct;
    var n := |t| - 1;
    var d, name := TrueRow(columns, t[..n], was), columns[n].name;
    PutGives(d, name, TrueValue(t[n], name, was));
    if i < n {
      TrueAt(columns, t[..n], was, i);
      NamesDiffer(columns, i, n);
      PutKeeps(d, name, TrueValue(t[n], name, was), columns[i].name);
    }
  }

  lemma NamesDiffer(columns: seq<Column>, i: nat, j: nat)
    requires Distinct(Names(columns)) && i < j < |columns|
    ensures columns[i].name != columns[j].name
  {
    assert Names(columns)[i] != Names(columns)[j];
  }

  lemma PutGives(d: Dict, c: string, val: Value)
    ensures c in Put(d, c, val).at && Put(d, c, val).at[c] == val
  {
  }

  lemma PutKeeps(d: Dict, c: string, val: Value, k: string)
    requires k != c && k in d.at
    ensures k in Put(d, c, val).at && Put(d, c, val).at[k] == d.at[k]
  {
  }

  /** The converted row, column by column. */
  lemma TrueSf(columns: seq<Column>, t: seq<ColumnData>, was: Dict, i: nat)
    requires TupleFits(columns, t) && i < |t|
    ensures var r, c := RowToSf(TrueRow(columns, t, was)).at, PgColToSf(columns[i].name);
            c in r && r[c] == Dumped(columns[i].name, TrueValue(t[i], columns[i].name, was), false)
  {
    hide PgColToSf, TrueRow, TrueValue, Dumped, RenamedUpTo, Distinct, Apart;
    var d := TrueRow(columns, t, was);
    ApartAreDistinct(Names(columns));
    TrueShape(columns, t, was);
    TrueAt(columns, t, was, i);
    assert d.keys == Names(columns);
    RenamedValue(d, |d.keys|, i, false);
    assert d.keys[i] == columns[i].name;
  }

  lemma TrueKeys(columns: seq<Column>, t: seq<ColumnData>, was: Dict)
    requires TupleFits(columns, t)
    ensures RowToSf(TrueRow(columns, t, was)).keys == Renamed(Names(columns))
  {
    hide PgColToSf, TrueRow, RenamedUpTo, Distinct, Apart, Renamed;
    var d := TrueRow(columns, t, was);
    ApartAreDistinct(Names(columns));
    TrueShape(columns, t, was);
    assert d.keys == Names(columns) && d.keys[..|d.keys|] == d.keys;
    RowToSfKeepsPlaces(d, |d.keys|, false);
  }

  /** A Snowflake column of such a row is that of one of the relation's columns. */
  lemma ColumnOfName(columns: seq<Column>, t: seq<ColumnData>, was: Dict, c: string) returns (i: nat)
    requires TupleFits(columns, t) && c in RowToSf(TrueRow(columns, t, was)).at
    ensures i < |t| && PgColToSf(columns[i].name) == c
  {
    hide PgColToSf, TrueRow, RenamedUpTo;
    TrueKeys(columns, t, was);
    assert c in Renamed(Names(columns));
    i :| 0 <= i < |Renamed(Names(columns))| && Renamed(Names(columns))[i] == c;
    assert Renamed(Names(columns))[i] == PgColToSf(Names(columns)[i]);
  }

  /** The row a tuple carries and the true row have the same columns. */
  lemma SameSfColumns(columns: seq<Column>, t: seq<ColumnData>, was: Dict)
    requires TupleFits(columns, t)
    ensures RowToSf(RowOf(columns, t)).at.Keys == RowToSf(TrueRow(columns, t, was)).at.Keys
    ensures RowOf(columns, t).keys == Names(columns)
  {
    hide PgColToSf, TrueRow, RenamedUpTo, Renamed, RowOf, Distinct, Apart;
    DecodedIsTrueOfNothing(columns, t);
    TrueKeys(columns, t, was);
    TrueKeys(columns, t, EMPTY_DICT);
    ApartAreDistinct(Names(columns));
    TrueShape(columns, t, EMPTY_DICT);
    assert RowOf(columns, t).keys == Names(columns)[..|columns|] == Names(columns);
    SameKeySets(RowToSf(RowOf(columns, t)), RowToSf(TrueRow(columns, t, was)));
  }

  lemma SameKeySets(a: Dict, b: Dict)
    requires a.keys == b.keys
    ensures a.at.Keys == b.at.Keys
  {
  }

  lemma DumpedNull(pgKey: string, val: Value)
    ensures Dumped(pgKey, val, false) == Null <==> val == Null
  {
  }

  /** Where the tuple carries a value, it is the true one. */
  lemma CarriedIsTrue(columns: seq<Column>, t: seq<ColumnData>, was: Dict, c: string)
    requires TupleFits(columns, t) && Get(RowToSf(RowOf(columns, t)).at, c) != Null
    ensures Get(RowToSf(TrueRow(columns, t, was)).at, c) == Get(RowToSf(RowOf(columns, t)).at, c)
  {
    hide PgColToSf, TrueRow, RenamedUpTo, RowOf, Apart, Dumped;
    DecodedIsTrueOfNothing(columns, t);
    var i := ColumnOfName(columns, t, EMPTY_DICT, c);
    TrueSf(columns, t, EMPTY_DICT, i);
    TrueSf(columns, t, was, i);
    DumpedNull(columns[i].name, TrueValue(t[i], columns[i].name, EMPTY_DICT));
  }

  /** A complete key of the tuple is the true key. */
  lemma CarriedKeyIsTrue(pk: seq<string>, columns: seq<Column>, t: seq<ColumnData>, was: Dict)
    requires TupleFits(columns, t) && Complete(SfKey(pk, RowOf(columns, t)))
    ensures SfKey(pk, TrueRow(columns, t, was)) == SfKey(pk, RowOf(columns, t))
  {
    hide TrueRow, RenamedUpTo, RowOf, TupleFits, RowToSf, Get;
    var key := SfKey(pk, RowOf(columns, t));
    forall i | 0 <= i < |pk|
      ensures Get(RowToSf(TrueRow(columns, t, was)).at, pk[i]) == Get(RowToSf(RowOf(columns, t)).at, pk[i])
    {
      assert key[i] in key && key[i] == Get(RowToSf(RowOf(columns, t)).at, pk[i]);
      CarriedIsTrue(columns, t, was, pk[i]);
    }
  }

  lemma FitsHasColumns(v: View, d: Dict)
    requires v.Ok() && RowFits(v, d)
    ensures RowToSf(d).at.Keys == v.cols && v.cols != {} && Complete(SfKey(v.pk, d))
  {
    hide RenamedUpTo;
    assert SfKey(v.pk, d)[0] == Get(RowToSf(d).at, v.pk[0]);
  }

  // ---- One message ------------------------------------------------------------------------------------------------

  lemma ReplayOne(pk: seq<string>, t: Table, e: ChangeEvent)
    ensures ReplayTable(pk, t, [e]) == ApplyEvent(pk, t, e) && ReplayTable(pk, t, []) == t
  {
    hide ApplyEvent;
    assert [e][..0] == [];
  }

  /** One row more, under a new key. */
  lemma InsertMirrors(v: View, m: Snapshot, t: Table, e: ChangeEvent, oid: nat, d: Dict)
    requires v.Ok() && Mirrors(v.pk, t, m) && RowFits(v, d) && SfKey(v.pk, d) !in m
    requires e.op.Insert? && e.after == Some(d) && d.keys != []
    ensures Mirrors(v.pk, ApplyEvent(v.pk, t, e), m[SfKey(v.pk, d) := Stored(oid, d)])
  {
    FitsHasColumns(v, d);
    var k0, r := SfKey(v.pk, d), UpsertRow(e).at;
    assert HasUpsert(e) && r == RowToSf(d).at && KeyOf(v.pk, r) == k0;
    forall k ensures Slice(v.pk, ApplyEvent(v.pk, t, e), k) == Shown(m[k0 := Stored(oid, d)], k) {
      hide *;
      MirrorsAt(v.pk, t, m, k);
      SliceApply(v.pk, t, e, k);
      MergeIntoNone(v.pk, [], r);
      ShownPut(m, k0, Stored(oid, d), k);
    }
  }

  lemma ShownPut(m: Snapshot, k0: Key, s: Stored, k: Key)
    ensures Shown(m[k0 := s], k) == if k == k0 then [RowToSf(s.row).at] else Shown(m, k)
    ensures Shown((m - {k0})[k0 := s], k) == if k == k0 then [RowToSf(s.row).at] else Shown(m, k)
    ensures Shown(m - {k0}, k) == if k == k0 then [] else Shown(m, k)
    ensures k !in m ==> Shown(m, k) == []
    ensures k in m ==> Shown(m, k) == [RowToSf(m[k].row).at]
  {
    hide RowToSf;
  }

  lemma DeleteMirrors(v: View, m: Snapshot, t: Table, e: ChangeEvent, d: Dict)
    requires SnapshotOk(v, m) && Mirrors(v.pk, t, m) && SfKey(v.pk, d) in m
    requires e.op.Delete? && e.before == Some(d)
    ensures Mirrors(v.pk, ApplyEvent(v.pk, t, e), m - {SfKey(v.pk, d)})
  {
    var k0 := SfKey(v.pk, d);
    assert Complete(k0) && !HasUpsert(e) && DeleteKeyOf(v.pk, e) == k0;
    forall k ensures Slice(v.pk, ApplyEvent(v.pk, t, e), k) == Shown(m - {k0}, k) {
      hide *;
      MirrorsAt(v.pk, t, m, k);
      SliceApply(v.pk, t, e, k);
      ShownPut(m, k0, Stored(0, d), k);
    }
  }

  /** Merging a row that fits into a row that fits, under one key, puts it in its place. */
  lemma MergeReplaces(v: View, a: Dict, b: Dict)
    requires v.Ok() && RowFits(v, a) && RowFits(v, b) && SfKey(v.pk, a) == SfKey(v.pk, b)
    ensures MergeAt(v.pk, [RowToSf(a).at], [RowToSf(b).at]) == [RowToSf(b).at]
  {
    hide RowToSf, MergeAt;
    var x, y := RowToSf(a).at, RowToSf(b).at;
    OverridePeer(v.pk, x, x, y);
    OverridePeer(v.pk, y, x, y);
    assert Override(v.pk, x, y) == y;
    MergeOne(v.pk, x, y);
  }

  /** An update whose tuple says the whole truth and keeps the key. */
  lemma UpdateMirrors(v: View, m: Snapshot, t: Table, e: ChangeEvent, oid: nat, d: Dict)
    requires v.Ok() && SnapshotOk(v, m) && Mirrors(v.pk, t, m) && RowFits(v, d) && SfKey(v.pk, d) in m
    requires e.op.Update? && e.after == Some(d) && d.keys != []
    ensures Mirrors(v.pk, ApplyEvent(v.pk, t, e), (m - {SfKey(v.pk, d)})[SfKey(v.pk, d) := Stored(oid, d)])
  {
    var k0 := SfKey(v.pk, d);
    FitsHasColumns(v, d);
    var r := UpsertRow(e).at;
    assert HasUpsert(e) && r == RowToSf(d).at && KeyOf(v.pk, r) == k0;
    assert RowFits(v, m[k0].row) && SfKey(v.pk, m[k0].row) == k0;
    MergeReplaces(v, m[k0].row, d);
    forall k ensures Slice(v.pk, ApplyEvent(v.pk, t, e), k) == Shown((m - {k0})[k0 := Stored(oid, d)], k) {
      hide *;
      MirrorsAt(v.pk, t, m, k);
      SliceApply(v.pk, t, e, k);
      ShownPut(m, k0, Stored(oid, d), k);
    }
  }

  lemma MergeOne(pk: seq<string>, was: Row, r: Row)
    ensures MergeAt(pk, [was], [r]) == [Override(pk, was, r)]
  {
    assert OverrideAll(pk, [was], r) == [Override(pk, was, r)];
  }

  /** A tuple whose key misses a value is inserted beside the row it should have changed. */
  lemma IncompleteKeyIsAdded(v: View, m: Snapshot, t: Table, e: ChangeEvent)
    requires SnapshotOk(v, m) && HasUpsert(e) && !Complete(KeyOf(v.pk, UpsertRow(e).at))
    ensures !Mirrors(v.pk, ApplyEvent(v.pk, t, e), m)
  {
    var r := UpsertRow(e).at;
    var kd := KeyOf(v.pk, r);
    assert kd !in m;
    SliceMerge(v.pk, t, [r], kd);
    SliceSnoc(v.pk, [], r, kd);
    assert [] + [r] == [r];
  }

  /** An update that moves a row leaves the old row behind. */
  lemma KeyChangeLeavesStaleRow(v: View, m: Snapshot, t: Table, e: ChangeEvent, k: Key, m': Snapshot)
    requires SnapshotOk(v, m) && Mirrors(v.pk, t, m) && k in m
    requires HasUpsert(e) && Complete(KeyOf(v.pk, UpsertRow(e).at)) && KeyOf(v.pk, UpsertRow(e).at) != k
    ensures Slice(v.pk, ApplyEvent(v.pk, t, e), k) == [RowToSf(m[k].row).at]
    ensures k !in m' ==> !Mirrors(v.pk, ApplyEvent(v.pk, t, e), m')
  {
    SliceApply(v.pk, t, e, k);
  }

  lemma OverrideTakes(pk: seq<string>, was: Row, r: Row, c: string)
    requires c in r && r[c] == Null && Complete(KeyOf(pk, r))
    ensures c in Override(pk, was, r) && Override(pk, was, r)[c] == Null
  {
    forall i | 0 <= i < |pk| ensures pk[i] != c {
      assert KeyOf(pk, r)[i] in KeyOf(pk, r);
    }
  }

  /** What an update does to the row of its own key, as far as one column sent without a value goes. */
  lemma UpdateEmptiesColumn(v: View, m: Snapshot, t: Table, e: ChangeEvent, k: Key, c: string)
    requires Mirrors(v.pk, t, m) && k in m && Complete(k)
    requires HasUpsert(e) && KeyOf(v.pk, UpsertRow(e).at) == k && c in UpsertRow(e).at && UpsertRow(e).at[c] == Null
    ensures var rows := Slice(v.pk, ApplyEvent(v.pk, t, e), k);
            |rows| == 1 && c in rows[0] && rows[0][c] == Null
  {
    hide Slice, RowToSf, ApplyEvent, UpsertRow, HasUpsert;
    var was, r := RowToSf(m[k].row).at, UpsertRow(e).at;
    SliceApply(v.pk, t, e, k);
    assert Slice(v.pk, t, k) == [was];
    MergeOne(v.pk, was, r);
    OverrideTakes(v.pk, was, r, c);
  }

  /** The event of an update, whatever else it says. */
  lemma UpdateEvent(v: View, e: Made) returns (event: ChangeEvent)
    requires UpdatesHere(v, e)
    ensures ShareOne(v, e) == [event] && event.op.Update?
    ensures event.after == Some(RowOf(ColumnsIn(v, e), e.sent.msg.new_))
  {
    hide RowOf;
    event := Denotes(e.context, e.sent.msg, e.sent.lsn).1.value.(table := v.table);
  }

  lemma UpdateHasRow(v: View, m: Snapshot, e: Made, event: ChangeEvent)
    requires v.Ok() && UpdatesHere(v, e) && Allowed(v, m, e)
    requires event.op.Update? && event.after == Some(RowOf(ColumnsIn(v, e), e.sent.msg.new_))
    ensures HasUpsert(event) && event.after.value.keys != []
  {
    var columns, t, was := ColumnsIn(v, e), e.sent.msg.new_, RowAt(m, OldKey(v, e));
    assert RowFits(v, TrueRow(columns, t, was)) && TupleFits(columns, t);
    hide RowOf, TrueRow, RowToSf, RowFits, View.Ok, TupleFits;
    SameSfColumns(columns, t, was);
    FitsHasColumns(v, TrueRow(columns, t, was));
    NoColumns(columns, t);
  }

  lemma NoColumns(columns: seq<Column>, t: seq<ColumnData>)
    ensures RowOf(columns, t).keys == [] ==> RowToSf(RowOf(columns, t)).at.Keys == {}
  {
    hide RowOf;
  }

  /** An update whose tuple says the whole truth and keeps the key. */
  lemma PlainUpdateMirrors(v: View, m: Snapshot, t: Table, e: Made)
    requires v.Ok() && SnapshotOk(v, m) && Allowed(v, m, e) && Mirrors(v.pk, t, m)
    requires UpdatesHere(v, e) && !Breaks(v, m, e)
    ensures Mirrors(v.pk, ReplayTable(v.pk, t, ShareOne(v, e)), Change(v, m, e))
  {
    var event := UpdateEvent(v, e);
    UpdateHasRow(v, m, e, event);
    UpdateIsTrue(v, m, e);
    hide RowOf, TrueRow, Mirrors, ShareOne, ReplayTable, RowToSf, SnapshotOk, View.Ok, HasUpsert;
    ReplayOne(v.pk, t, event);
    UpdateMirrors(v, m, t, event, e.sent.msg.oid, event.after.value);
  }

  lemma UpdateIsTrue(v: View, m: Snapshot, e: Made)
    requires Allowed(v, m, e) && UpdatesHere(v, e) && !Breaks(v, m, e)
    ensures RowOf(ColumnsIn(v, e), e.sent.msg.new_) == Updated(v, m, e)
  {
    hide RowOf, TrueRow, RowToSf, RowFits, TupleFits, ColumnName, OldKey, SfKey;
    var columns, t := ColumnsIn(v, e), e.sent.msg.new_;
    forall i | 0 <= i < |t| && t[i].UnchangedToast?
      ensures Get(RowAt(m, OldKey(v, e)).at, ColumnName(columns, i)) == Null
    {
      assert !LosesColumn(v, m, e, i);
    }
    TruthIsDecoded(columns, t, RowAt(m, OldKey(v, e)));
  }

  /** Every update that breaks the mirror does break it. */
  lemma BreakingUpdate(v: View, m: Snapshot, t: Table, e: Made)
    requires v.Ok() && SnapshotOk(v, m) && Allowed(v, m, e) && Mirrors(v.pk, t, m)
    requires UpdatesHere(v, e) && Breaks(v, m, e)
    ensures !Mirrors(v.pk, ReplayTable(v.pk, t, ShareOne(v, e)), Change(v, m, e))
  {
    var event := UpdateEvent(v, e);
    UpdateHasRow(v, m, e, event);
    ReplayOne(v.pk, t, event);
    hide RowOf, TrueRow, RowToSf, ApplyEvent, Mirrors, ReplayTable, ShareOne, SfKey, RowFits, TupleFits, View.Ok,
      SnapshotOk,
      Change;
    if !Complete(SfKey(v.pk, event.after.value)) {
      IncompleteRow(v, m, t, e, event);
    } else if ChangesKey(v, m, e) {
      MovedRow(v, m, t, e, event);
    } else {
      var i := LostAt(v, m, e);
      EmptiedRow(v, m, t, e, event, i);
    }
  }

  lemma IncompleteRow(v: View, m: Snapshot, t: Table, e: Made, event: ChangeEvent)
    requires SnapshotOk(v, m) && Allowed(v, m, e) && HasUpsert(event)
    requires event.after.Some? && !Complete(SfKey(v.pk, event.after.value))
    ensures !Mirrors(v.pk, ApplyEvent(v.pk, t, event), Change(v, m, e))
  {
    hide RowToSf, ApplyEvent, Mirrors, Change, Allowed, SnapshotOk;
    ChangeKeepsOk(v, m, e);
    IncompleteKeyIsAdded(v, Change(v, m, e), t, event);
  }

  lemma LostAt(v: View, m: Snapshot, e: Made) returns (i: nat)
    requires UpdatesHere(v, e)
    requires Breaks(v, m, e) && !ChangesKey(v, m, e)
    ensures LosesColumn(v, m, e, i)
  {
    hide ChangesKey;
    i :| i < |e.sent.msg.new_| && LosesColumn(v, m, e, i);
  }

  /** An update of a row that is there, with the event that comes of it. */
  ghost predicate RowUpdate(v: View, m: Snapshot, t: Table, e: Made, event: ChangeEvent) {
    && UpdatesHere(v, e) && TupleFits(ColumnsIn(v, e), e.sent.msg.new_)
    && OldKey(v, e) in m && Mirrors(v.pk, t, m)
    && event.op.Update? && event.after == Some(RowOf(ColumnsIn(v, e), e.sent.msg.new_)) && event.after.value.keys != []
    && Complete(SfKey(v.pk, event.after.value))
  }

  lemma RowUpdateRow(v: View, m: Snapshot, t: Table, e: Made, event: ChangeEvent)
    requires RowUpdate(v, m, t, e, event)
    ensures HasUpsert(event) && KeyOf(v.pk, UpsertRow(event).at) == SfKey(v.pk, event.after.value)
    ensures SfKey(v.pk, event.after.value) == SfKey(v.pk, Updated(v, m, e))
    ensures UpsertRow(event).at == RowToSf(event.after.value).at
  {
    hide RowOf, TrueRow, RowToSf, Mirrors, TupleFits, OldKey, Complete;
    CarriedKeyIsTrue(v.pk, ColumnsIn(v, e), e.sent.msg.new_, RowAt(m, OldKey(v, e)));
  }

  /** What the source holds under the old key after an update. */
  lemma AfterUpdate(v: View, m: Snapshot, e: Made)
    requires UpdatesHere(v, e)
    ensures ChangesKey(v, m, e) ==> OldKey(v, e) !in Change(v, m, e)
    ensures !ChangesKey(v, m, e) ==>
              OldKey(v, e) in Change(v, m, e) && Change(v, m, e)[OldKey(v, e)].row == Updated(v, m, e)
  {
    hide SfKey, OldKey, Updated;
  }

  lemma MovedRow(v: View, m: Snapshot, t: Table, e: Made, event: ChangeEvent)
    requires RowUpdate(v, m, t, e, event) && SnapshotOk(v, m) && ChangesKey(v, m, e)
    ensures !Mirrors(v.pk, ApplyEvent(v.pk, t, event), Change(v, m, e))
  {
    assert OldKey(v, e) in m && Mirrors(v.pk, t, m) && Complete(SfKey(v.pk, event.after.value));
    assert SfKey(v.pk, Updated(v, m, e)) != OldKey(v, e);
    hide *;
    RowUpdateRow(v, m, t, e, event);
    AfterUpdate(v, m, e);
    KeyChangeLeavesStaleRow(v, m, t, event, OldKey(v, e), Change(v, m, e));
  }

  lemma EmptiedRow(v: View, m: Snapshot, t: Table, e: Made, event: ChangeEvent, i: nat)
    requires RowUpdate(v, m, t, e, event) && !ChangesKey(v, m, e) && LosesColumn(v, m, e, i)
    ensures !Mirrors(v.pk, ApplyEvent(v.pk, t, event), Change(v, m, e))
  {
    hide RowOf, TrueRow, RowToSf, ApplyEvent, Mirrors, TupleFits, OldKey, HasUpsert, Complete, LosesColumn, PgColToSf;
    LostColumn(v, m, t, e, event, i);
    AfterUpdate(v, m, e);
    if Mirrors(v.pk, ApplyEvent(v.pk, t, event), Change(v, m, e)) {
      MirrorsAt(v.pk, ApplyEvent(v.pk, t, event), Change(v, m, e), OldKey(v, e));
    }
  }

  /**
   A column sent as unchanged TOAST is emptied in the table although the source keeps its value,
   and although the message may carry that value in its old tuple.
   */
  lemma LostColumn(v: View, m: Snapshot, t: Table, e: Made, event: ChangeEvent, i: nat)
    requires RowUpdate(v, m, t, e, event) && !ChangesKey(v, m, e) && LosesColumn(v, m, e, i)
    ensures var rows, c := Slice(v.pk, ApplyEvent(v.pk, t, event), OldKey(v, e)),
                           PgColToSf(ColumnsIn(v, e)[i].name);
            && |rows| == 1 && c in rows[0] && rows[0][c] == Null
            && Get(RowToSf(Updated(v, m, e)).at, c) != Null
  {
    RowUpdateRow(v, m, t, e, event);
    var columns, new_, k := ColumnsIn(v, e), e.sent.msg.new_, OldKey(v, e);
    var was, c := RowAt(m, k), PgColToSf(columns[i].name);
    assert Updated(v, m, e) == TrueRow(columns, new_, was);
    hide RowOf, TrueRow, Mirrors, RowToSf, ApplyEvent, Slice, TupleFits, PgColToSf, HasUpsert, UpsertRow, Complete,
      OldKey, Updated;
    DecodedIsTrueOfNothing(columns, new_);
    TrueSf(columns, new_, EMPTY_DICT, i);
    TrueSf(columns, new_, was, i);
    DumpedNull(columns[i].name, Get(was.at, columns[i].name));
    UpdateEmptiesColumn(v, m, t, event, k, c);
  }

  lemma TruncateMirrors(v: View, m: Snapshot, t: Table, e: Made)
    requires Mirrors(v.pk, t, m) && e.sent.msg.TruncateMsg?
    ensures Mirrors(v.pk, ReplayTable(v.pk, t, ShareOne(v, e)), Change(v, m, e)) <==> !Breaks(v, m, e)
  {
    hide Slice, RowToSf;
    ReplayNone(v.pk, t);
    if Breaks(v, m, e) {
      var k :| k in m && m[k].oid in e.sent.msg.oids;
      assert Slice(v.pk, t, k) != [] && k !in Change(v, m, e);
    }
  }

  lemma ReplayNone(pk: seq<string>, t: Table)
    ensures ReplayTable(pk, t, []) == t
  {
  }

  lemma InsertOrDeleteMirrors(v: View, m: Snapshot, t: Table, e: Made, oid: nat)
    requires v.Ok() && SnapshotOk(v, m) && Allowed(v, m, e) && Mirrors(v.pk, t, m)
    requires e.sent.msg.InsertMsg? || e.sent.msg.DeleteMsg?
    requires oid == e.sent.msg.oid && v.Concerns(e.context, oid)
    ensures Mirrors(v.pk, ReplayTable(v.pk, t, ShareOne(v, e)), Change(v, m, e))
  {
    var columns := e.context.relations[oid].columns;
    var event := Denotes(e.context, e.sent.msg, e.sent.lsn).1.value.(table := v.table);
    assert ShareOne(v, e) == [event] by { hide RowOf; }
    ReplayOne(v.pk, t, event);
    if e.sent.msg.InsertMsg? {
      var d := RowOf(columns, e.sent.msg.new_);
      hide RowOf, Mirrors, ShareOne, ReplayTable, SnapshotOk;
      assert d.keys != [] by {
        FitsHasColumns(v, d);
        NoColumns(columns, e.sent.msg.new_);
      }
      InsertMirrors(v, m, t, event, oid, d);
    } else {
      hide RowOf, Mirrors, ShareOne, ReplayTable, SnapshotOk;
      DeleteMirrors(v, m, t, event, RowOf(columns, e.sent.msg.gone.columns));
    }
  }

  /** A message that is no change of this table. */
  predicate Elsewhere(v: View, e: Made) {
    match e.sent.msg
    case InsertMsg(oid, _) => !v.Concerns(e.context, oid)
    case UpdateMsg(oid, _, _) => !v.Concerns(e.context, oid)
    case DeleteMsg(oid, _) => !v.Concerns(e.context, oid)
    case TruncateMsg(_, _) => false
    case _ => true
  }

  lemma ElsewhereIsNothing(v: View, m: Snapshot, e: Made)
    requires Elsewhere(v, e)
    ensures ShareOne(v, e) == [] && Change(v, m, e) == m && !Breaks(v, m, e)
  {
    hide RowOf;
  }

  /** Replaying one message keeps the table a mirror if and only if the message is none that breaks it. */
  lemma StepMirrors(v: View, m: Snapshot, t: Table, e: Made)
    requires v.Ok() && SnapshotOk(v, m) && Allowed(v, m, e) && Mirrors(v.pk, t, m)
    ensures Mirrors(v.pk, ReplayTable(v.pk, t, ShareOne(v, e)), Change(v, m, e)) <==> !Breaks(v, m, e)
  {
    hide SnapshotOk, Mirrors, Allowed, Change, ShareOne, ReplayTable, View.Ok, View.Concerns, Schema.Normalize;
    if Elsewhere(v, e) {
      ElsewhereIsNothing(v, m, e);
      ReplayNone(v.pk, t);
    } else {
      match e.sent.msg
      case InsertMsg(oid, _) => InsertOrDeleteMirrors(v, m, t, e, oid);
      case DeleteMsg(oid, _) => InsertOrDeleteMirrors(v, m, t, e, oid);
      case UpdateMsg(_, _, _) =>
        if Breaks(v, m, e) {
          BreakingUpdate(v, m, t, e);
        } else {
          PlainUpdateMirrors(v, m, t, e);
        }
      case TruncateMsg(_, _) => TruncateMirrors(v, m, t, e);
    }
  }

  // ---- A whole log -----------------------------------------------------------------------------------------------

  lemma ChangeKeepsOk(v: View, m: Snapshot, e: Made)
    requires SnapshotOk(v, m) && Allowed(v, m, e)
    ensures SnapshotOk(v, Change(v, m, e))
  {
    hide RowOf, RowFits, TrueRow, SfKey, TupleFits, View.Concerns;
  }

  lemma {:induction false} AfterOk(v: View, m: Snapshot, made: seq<Made>)
    requires SnapshotOk(v, m) && AllowedAll(v, m, made)
    ensures SnapshotOk(v, After(v, m, made))
  {
    hide SnapshotOk, Allowed, Change;
    if made == [] {
    } else {
      var init := made[..|made| - 1];
      AllowedPrefix(v, m, made, |init|);
      AfterOk(v, m, init);
      assert Allowed(v, After(v, m, made[..|init|]), made[|init|]);
      ChangeKeepsOk(v, After(v, m, init), made[|init|]);
    }
  }

  lemma AllowedPrefix(v: View, m: Snapshot, made: seq<Made>, n: nat)
    requires n <= |made| && AllowedAll(v, m, made)
    ensures AllowedAll(v, m, made[..n])
  {
    hide Allowed, After;
    forall i | 0 <= i < n ensures Allowed(v, After(v, m, made[..n][..i]), made[..n][i]) {
      assert made[..n][..i] == made[..i];
    }
  }

  lemma NothingBreaksPrefix(v: View, m: Snapshot, made: seq<Made>, n: nat)
    requires n <= |made| && NothingBreaks(v, m, made)
    ensures NothingBreaks(v, m, made[..n])
  {
    hide Breaks, After;
    forall i | 0 <= i < n ensures !Breaks(v, After(v, m, made[..n][..i]), made[..n][i]) {
      assert made[..n][..i] == made[..i];
    }
  }

  /** One message more. */
  lemma ReplayMore(v: View, m: Snapshot, t: Table, made: seq<Made>, n: nat)
    requires n < |made|
    ensures ReplayTable(v.pk, t, Share(v, made[..n + 1]))
         == ReplayTable(v.pk, ReplayTable(v.pk, t, Share(v, made[..n])), ShareOne(v, made[n]))
    ensures After(v, m, made[..n + 1]) == Change(v, After(v, m, made[..n]), made[n])
  {
    hide ReplayTable, ShareOne, Change;
    assert made[..n + 1][..n] == made[..n];
    ReplayTableConcat(v.pk, t, Share(v, made[..n]), ShareOne(v, made[n]));
  }

  /** The mirror after `n + 1` messages, given the mirror after `n`. */
  lemma NextMirrors(v: View, m: Snapshot, t: Table, made: seq<Made>, n: nat)
    requires v.Ok() && SnapshotOk(v, m) && AllowedAll(v, m, made) && n < |made|
    requires Mirrors(v.pk, ReplayTable(v.pk, t, Share(v, made[..n])), After(v, m, made[..n]))
    ensures Mirrors(v.pk, ReplayTable(v.pk, t, Share(v, made[..n + 1])), After(v, m, made[..n + 1]))
       <==> !Breaks(v, After(v, m, made[..n]), made[n])
  {
    hide SnapshotOk, Mirrors, Allowed, Change, ShareOne, ReplayTable, View.Ok, Breaks, Share, After;
    AllowedPrefix(v, m, made, n);
    AfterOk(v, m, made[..n]);
    ReplayMore(v, m, t, made, n);
    StepMirrors(v, After(v, m, made[..n]), ReplayTable(v.pk, t, Share(v, made[..n])), made[n]);
  }

  lemma {:induction false} ReplayMirrors(v: View, m: Snapshot, t: Table, made: seq<Made>, n: nat)
    requires v.Ok() && SnapshotOk(v, m) && AllowedAll(v, m, made) && Mirrors(v.pk, t, m) && NothingBreaks(v, m, made)
    requires n <= |made|
    ensures Mirrors(v.pk, ReplayTable(v.pk, t, Share(v, made[..n])), After(v, m, made[..n]))
  {
    hide SnapshotOk, Mirrors, AllowedAll, ShareOne, View.Ok, Breaks, Change, ApplyEvent;
    if n == 0 {
      assert made[..0] == [];
    } else {
      ReplayMirrors(v, m, t, made, n - 1);
      NextMirrors(v, m, t, made, n - 1);
    }
  }

  /**
   Replay mirrors the source after every message of a log if and only if no update changes a key, no
   unchanged TOAST column holds a value, and no Truncate removes a row.
   */
  lemma {:induction false} ReplayTracksSource(v: View, m: Snapshot, t: Table, made: seq<Made>)
    requires v.Ok() && SnapshotOk(v, m) && AllowedAll(v, m, made) && Mirrors(v.pk, t, m)
    ensures (forall n :: 0 <= n <= |made| ==>
             Mirrors(v.pk, ReplayTable(v.pk, t, Share(v, made[..n])), After(v, m, made[..n])))
       <==> NothingBreaks(v, m, made)
  {
    hide SnapshotOk, Mirrors, AllowedAll, View.Ok, Breaks, Share, After, ReplayTable;
    if NothingBreaks(v, m, made) {
      forall n | 0 <= n <= |made|
        ensures Mirrors(v.pk, ReplayTable(v.pk, t, Share(v, made[..n])), After(v, m, made[..n]))
      {
        ReplayMirrors(v, m, t, made, n);
      }
    } else {
      var n :| 0 <= n < |made| && Breaks(v, After(v, m, made[..n]), made[n]);
      if Mirrors(v.pk, ReplayTable(v.pk, t, Share(v, made[..n])), After(v, m, made[..n])) {
        NextMirrors(v, m, t, made, n);
      }
    }
  }

  // ---- Batches against the source ----------------------------------------------------------------------------

  lemma ShareOneIsTidy(v: View, m: Snapshot, e: Made)
    requires Allowed(v, m, e) && !Breaks(v, m, e)
    ensures Tidy(v.pk, v.cols, ShareOne(v, e))
  {
    if UpdatesHere(v, e) {
      UpdateIsTrue(v, m, e);
    }
    hide RowOf, TrueRow, TupleFits, RowToSf, ChangesKey, LosesToast;
  }

  lemma {:induction false} ShareIsTidy(v: View, m: Snapshot, made: seq<Made>)
    requires AllowedAll(v, m, made) && NothingBreaks(v, m, made)
    ensures Tidy(v.pk, v.cols, Share(v, made))
  {
    hide Allowed, Breaks, After, ShareOne, UpsertRow, HasUpsert, TidyRow;
    if made == [] {
    } else {
      var n := |made| - 1;
      AllowedPrefix(v, m, made, n);
      NothingBreaksPrefix(v, m, made, n);
      ShareIsTidy(v, m, made[..n]);
      ShareOneIsTidy(v, After(v, m, made[..n]), made[n]);
    }
  }

  lemma MirrorsAlike(pk: seq<string>, a: Table, b: Table, m: Snapshot)
    requires Alike(pk, a, b) && Mirrors(pk, b, m)
    ensures Mirrors(pk, a, m)
  {
  }

  /**
   End to end for one table: batches, retries and deduplication included, the current table holds
   exactly the rows the source held after the messages whose events were confirmed.
   */
  lemma {:induction false} RunMirrorsSource(v: View, cycles: seq<Cycle>, t: Table, m: Snapshot, made: seq<Made>)
    requires v.Ok() && ValidCycles(v.sc, cycles) && AllFaithful(v.sc, cycles, v.table)
    requires TableEvents(v.sc, LogOf(cycles), v.table) == Share(v, made)
    requires SnapshotOk(v, m) && Mirrors(v.pk, t, m) && AllowedAll(v, m, made) && NothingBreaks(v, m, made)
    ensures var name := v.sc.tables[v.table].current;
            AllLegal(OpsOn(CyclesOps(cycles), name)) && Mirrors(v.pk, AfterCycles(t, cycles, name), After(v, m, made))
  {
    hide SnapshotOk, Mirrors, AllowedAll, NothingBreaks, Share, After, ReplayTable, AllFaithful, ValidCycles, Tidy,
      TableEvents, AfterCycles, AllLegal, OpsOn, CyclesOps, Schema.Valid;
    ShareIsTidy(v, m, made);
    RunIsReplay(v.sc, v.cols, cycles, v.table, t);
    ReplayMirrors(v, m, t, made, |made|);
    assert made[..|made|] == made;
    MirrorsAlike(v.pk, AfterCycles(t, cycles, v.sc.tables[v.table].current), ReplayTable(v.pk, t, Share(v, made)),
                 After(v, m, made));
  }

  // ---- The messages of whole sessions ------------------------------------------------------------------------

  function MadeBy(stream: seq<Sent>): seq<Made> {
    if stream == [] then []
    else MadeBy(stream[..|stream| - 1]) + [Made(Context(stream[..|stream| - 1]), stream[|stream| - 1])]
  }

  function MadeByAll(streams: seq<seq<Sent>>): seq<Made> {
    if streams == [] then [] else MadeByAll(streams[..|streams| - 1]) + MadeBy(streams[|streams| - 1])
  }

  lemma {:induction false} ShareConcat(v: View, a: seq<Made>, b: seq<Made>)
    ensures Share(v, a + b) == Share(v, a) + Share(v, b)
  {
    hide ShareOne;
    if b == [] {
      assert a + b == a;
    } else {
      assert (a + b)[..|a + b| - 1] == a + b[..|b| - 1];
      ShareConcat(v, a, b[..|b| - 1]);
    }
  }

  /** A first part of the events is that of some first messages, as many as possible. */
  lemma {:induction false} ShareCut(v: View, made: seq<Made>, len: nat) returns (n: nat)
    requires len <= |Share(v, made)|
    ensures n <= |made| && Share(v, made[..n]) == Share(v, made)[..len]
    ensures len == |Share(v, made)| ==> n == |made|
  {
    hide Denotes, Schema.Normalize;
    if len == |Share(v, made)| {
      n := |made|;
      assert made[..n] == made;
    } else {
      n := ShareCut(v, made[..|made| - 1], len);
      assert made[..|made| - 1][..n] == made[..n];
    }
  }

  // ---- Two messages that the service does not follow -----------------------------------------------------------

  /** Even a full old tuple does not help: the event has the value before, and NULL after. */
  lemma FullIdentityLosesToast(s: ParserState, oid: nat, id: Bytes, big: Bytes, lsn: nat)
    requires oid in s.relations && |s.relations[oid].columns| == 2
    requires s.relations[oid].columns[0].name != s.relations[oid].columns[1].name
    ensures var toasted := UpdateMsg(oid, Some(OldTuple(true, [TextColumn(id), TextColumn(big)])),
                                     [TextColumn(id), UnchangedToast]);
            var e, name := Denotes(s, toasted, lsn).1, s.relations[oid].columns[1].name;
            && e.Some? && e.value.before.Some? && e.value.after.Some?
            && Get(e.value.before.value.at, name) == Text(Chars(big)) && name in e.value.after.value.at
            && Get(e.value.after.value.at, name) == Null
  {
    hide Chars;
    var columns := s.relations[oid].columns;
    var before, after := [TextColumn(id), TextColumn(big)], [TextColumn(id), UnchangedToast];
    assert before[..1] == [TextColumn(id)] == after[..1] && [TextColumn(id)][..0] == [];
    assert RowOf(columns, [TextColumn(id)]) == Put(EMPTY_DICT, columns[0].name, Text(Chars(id)));
    assert RowOf(columns, before) == Put(RowOf(columns, before[..1]), columns[1].name, Text(Chars(big)));
    assert RowOf(columns, after) == Put(RowOf(columns, after[..1]), columns[1].name, Null);
  }

  /** A Truncate empties the relation at the source; its rows stay in the table. */
  lemma TruncateLeavesRows(v: View, m: Snapshot, t: Table, e: Made, k: Key)
    requires Mirrors(v.pk, t, m) && e.sent.msg.TruncateMsg? && k in m && m[k].oid in e.sent.msg.oids
    ensures k !in Change(v, m, e)
    ensures Slice(v.pk, ReplayTable(v.pk, t, ShareOne(v, e)), k) == [RowToSf(m[k].row).at]
  {
    hide Slice, RowToSf;
    ReplayNone(v.pk, t);
  }
}
