/**
 The server's side of pgoutput: messages, how they are laid out in bytes, and what they mean.
 The parser inverts the encoder over whole streams.
 */
module Codec {
  import opened Values
  import opened Events
  import opened Utf8
  import opened Wire
  import opened Parser

  datatype ColumnData = NullColumn | UnchangedToast | TextColumn(raw: Bytes) | BinaryColumn(raw: Bytes)

  datatype RelationColumn = RelationColumn(flags: byte, name: Bytes, typeOid: nat, typeMod: nat)

  datatype OldTuple = OldTuple(full: bool, columns: seq<ColumnData>)

  datatype Msg =
    | BeginMsg(finalLsn: nat, commitTs: int, xid: nat)
    | RelationMsg(oid: nat, namespace: Bytes, table: Bytes, identity: byte, columns: seq<RelationColumn>)
    | InsertMsg(oid: nat, new_: seq<ColumnData>)
    | UpdateMsg(oid: nat, old_: Option<OldTuple>, new_: seq<ColumnData>)
    | DeleteMsg(oid: nat, gone: OldTuple)
    | TruncateMsg(options: byte, oids: seq<nat>)
    | OtherMsg(tag: byte, body: Bytes)

  const U16_LIMIT := 0x1_0000
  const U32_LIMIT := 0x1_0000_0000
  const U64_LIMIT := 0x1_0000_0000_0000_0000

  // ---- Well-formed messages ----------------------------------------------------------------------

  predicate FitsColumn(c: ColumnData) {
    (c.TextColumn? || c.BinaryColumn?) ==> |c.raw| < U32_LIMIT
  }

  predicate FitsTuple(t: seq<ColumnData>) {
    |t| < U16_LIMIT && forall i :: 0 <= i < |t| ==> FitsColumn(t[i])
  }

  predicate FitsRelColumn(c: RelationColumn) {
    WireName(c.name) && c.typeOid < U32_LIMIT && c.typeMod < U32_LIMIT
  }

  predicate WellFormed(m: Msg) {
    match m
    case BeginMsg(lsn, ts, xid) => lsn < U64_LIMIT && MIN_TS_US <= ts < MAX_TS_US && xid < U32_LIMIT
    case RelationMsg(oid, ns, table, _, columns) =>
      && oid < U32_LIMIT && WireName(ns) && WireName(table) && |columns| < U16_LIMIT
      && forall i :: 0 <= i < |columns| ==> FitsRelColumn(columns[i])
    case InsertMsg(oid, new_) => oid < U32_LIMIT && FitsTuple(new_)
    case UpdateMsg(oid, old_, new_) =>
      oid < U32_LIMIT && FitsTuple(new_) && (old_.Some? ==> FitsTuple(old_.value.columns))
    case DeleteMsg(oid, gone) => oid < U32_LIMIT && FitsTuple(gone.columns)
    case TruncateMsg(_, oids) => |oids| < U32_LIMIT && forall i :: 0 <= i < |oids| ==> oids[i] < U32_LIMIT
    case OtherMsg(tag, _) => tag as char !in "BRIUDT"
  }

  // ---- Encoding -------------------------------------------------------------------------------------

  function Ascii(c: char): byte
    requires c < 128 as char
  {
    c as int as byte
  }

  function EncColumn(c: ColumnData): Bytes {
    match c
    case NullColumn => [Ascii('n')]
    case UnchangedToast => [Ascii('u')]
    case TextColumn(raw) => [Ascii('t')] + Enc32(|raw|) + raw
    case BinaryColumn(raw) => [Ascii('b')] + Enc32(|raw|) + raw
  }

  function EncColumns(t: seq<ColumnData>): Bytes {
    if t == [] then [] else EncColumns(t[..|t| - 1]) + EncColumn(t[|t| - 1])
  }

  function EncTuple(t: seq<ColumnData>): Bytes { Enc16(|t|) + EncColumns(t) }

  function EncRelColumn(c: RelationColumn): Bytes {
    [c.flags] + (c.name + [0]) + Enc32(c.typeOid) + Enc32(c.typeMod)
  }

  function EncRelColumns(cs: seq<RelationColumn>): Bytes {
    if cs == [] then [] else EncRelColumns(cs[..|cs| - 1]) + EncRelColumn(cs[|cs| - 1])
  }

  function OldKind(full: bool): byte { Ascii(if full then 'O' else 'K') }

  function EncOld(o: OldTuple): Bytes { [OldKind(o.full)] + EncTuple(o.columns) }

  function EncNew(t: seq<ColumnData>): Bytes { [Ascii('N')] + EncTuple(t) }

  function EncOids(oids: seq<nat>): Bytes {
    if oids == [] then [] else EncOids(oids[..|oids| - 1]) + Enc32(oids[|oids| - 1])
  }

  function Encode(m: Msg): Bytes
    requires WellFormed(m)
  {
    match m
    case BeginMsg(lsn, ts, xid) => [Ascii('B')] + (Enc64(lsn) + EncI64(ts) + Enc32(xid))
    case RelationMsg(oid, ns, table, identity, columns) =>
      [Ascii('R')]
      + (Enc32(oid) + ((ns + [0]) + ((table + [0]) + ([identity] + (Enc16(|columns|) + EncRelColumns(columns))))))
    case InsertMsg(oid, new_) => [Ascii('I')] + (Enc32(oid) + EncNew(new_))
    case UpdateMsg(oid, None, new_) => [Ascii('U')] + (Enc32(oid) + EncNew(new_))
    case UpdateMsg(oid, Some(old_), new_) =>
      [Ascii('U')] + (Enc32(oid) + (EncOld(old_) + EncNew(new_)))
    case DeleteMsg(oid, gone) => [Ascii('D')] + (Enc32(oid) + EncOld(gone))
    case TruncateMsg(options, oids) => [Ascii('T')] + (Enc32(|oids|) + ([options] + EncOids(oids)))
    case OtherMsg(tag, body) => [tag] + body
  }

  // ---- What the parser should make of a message --------------------------------------------------------

  function ColumnValue(c: ColumnData): Value {
    match c
    case NullColumn => Null
    case UnchangedToast => Null
    case TextColumn(raw) => Text(Chars(raw))
    case BinaryColumn(raw) => Binary(raw)
  }

  /** The row a tuple carries under the columns of its relation; an unchanged TOAST column carries nothing. */
  function RowOf(columns: seq<Column>, t: seq<ColumnData>): Dict {
    if t == [] then EMPTY_DICT
    else Put(RowOf(columns, t[..|t| - 1]), ColumnName(columns, |t| - 1), ColumnValue(t[|t| - 1]))
  }

  function ColumnOf(c: RelationColumn): Column { Column(Chars(c.name), c.typeOid, c.flags % 2 == 1) }

  function ColumnsOf(cs: seq<RelationColumn>): seq<Column> {
    if cs == [] then [] else ColumnsOf(cs[..|cs| - 1]) + [ColumnOf(cs[|cs| - 1])]
  }

  /** A change of a table whose relation is not known yet denotes nothing. */
  function ChangeMeans(s: ParserState, oid: nat, op: Op, old_: Option<seq<ColumnData>>, new_: Option<seq<ColumnData>>,
                       lsn: nat): Option<ChangeEvent> {
    if oid !in s.relations then None
    else
      var r := s.relations[oid];
      Some(ChangeEvent(op, r.namespace, r.table,
        if old_.Some? then Some(RowOf(r.columns, old_.value)) else None,
        if new_.Some? then Some(RowOf(r.columns, new_.value)) else None,
        lsn, s.tsUs, s.commitLsn))
  }

  /** A Truncate is no change event, and neither is any message of another kind. */
  function Denotes(s: ParserState, m: Msg, lsn: nat): (ParserState, Option<ChangeEvent>) {
    match m
    case BeginMsg(finalLsn, ts, _) => (ParserState(s.relations, ts + PG_EPOCH_US, finalLsn), None)
    case RelationMsg(oid, ns, table, _, columns) =>
      (s.(relations := s.relations[oid := Relation(oid, Chars(ns), Chars(table), ColumnsOf(columns))]), None)
    case InsertMsg(oid, new_) => (s, ChangeMeans(s, oid, Insert, None, Some(new_), lsn))
    case UpdateMsg(oid, old_, new_) =>
      (s, ChangeMeans(s, oid, Update, if old_.Some? then Some(old_.value.columns) else None, Some(new_), lsn))
    case DeleteMsg(oid, gone) => (s, ChangeMeans(s, oid, Delete, Some(gone.columns), None, lsn))
    case TruncateMsg(_, _) => (s, None)
    case OtherMsg(_, _) => (s, None)
  }

  // ---- Tuples read back ---------------------------------------------------------------------------------

  lemma SliceExact(data: Bytes, o: nat, raw: Bytes, tail: Bytes)
    requires At(data, o, raw, tail)
    ensures SliceOf(data, o, |raw|) == raw
  {
    AtBytes(data, o, raw, tail);
    if o == |data| { assert raw == []; }
  }

  /** A length-prefixed value. */
  lemma SizedInverts(data: Bytes, o: nat, kind: byte, raw: Bytes, tail: Bytes)
    requires |raw| < U32_LIMIT && At(data, o, [kind] + Enc32(|raw|) + raw, tail)
    ensures o + 5 + |raw| <= |data| && data[o] == kind && U32(data, o + 1) == |raw|
    ensures SliceOf(data, o + 5, |raw|) == raw && data[o + 5 + |raw|..] == tail
  {
    hide Enc32, U32, SliceOf;
    AtSplit(data, o, [kind] + Enc32(|raw|), raw, tail);
    AtSplit(data, o, [kind], Enc32(|raw|), raw + tail);
    AtBytes(data, o, [kind], Enc32(|raw|) + (raw + tail));
    assert data[o + 0] == [kind][0];
    Read32(data, o + 1, |raw|, raw + tail);
    SliceExact(data, o + 5, raw, tail);
    AtBytes(data, o + 5, raw, tail);
  }

  lemma {:induction false} ColumnInverts(data: Bytes, o: nat, c: ColumnData, tail: Bytes, name: string, row: Dict)
    requires FitsColumn(c) && At(data, o, EncColumn(c), tail)
    ensures ReadColumn(data, o, name, row) == Ok(Put(row, name, ColumnValue(c)), o + |EncColumn(c)|)
    ensures o + |EncColumn(c)| <= |data| && data[o + |EncColumn(c)|..] == tail
  {
    hide Put, Enc32, U32, SliceOf, Chars;
    match c
    case TextColumn(raw) => SizedInverts(data, o, Ascii('t'), raw, tail);
    case BinaryColumn(raw) => SizedInverts(data, o, Ascii('b'), raw, tail);
    case _ =>
      AtBytes(data, o, EncColumn(c), tail);
      assert data[o + 0] == EncColumn(c)[0];
  }

  lemma {:induction false} ColumnsInvert(data: Bytes, o: nat, columns: seq<Column>, t: seq<ColumnData>, tail: Bytes)
    requires (forall i :: 0 <= i < |t| ==> FitsColumn(t[i])) && At(data, o, EncColumns(t), tail)
    ensures ReadColumns(data, o, columns, |t|) == Ok(RowOf(columns, t), o + |EncColumns(t)|)
    ensures o + |EncColumns(t)| <= |data| && data[o + |EncColumns(t)|..] == tail
  {
    hide ReadColumn, EncColumn, FitsColumn, Put, ColumnName;
    if t == [] {
      assert data[o..] == [] + tail == tail;
    } else {
      var init, last := t[..|t| - 1], t[|t| - 1];
      AtSplit(data, o, EncColumns(init), EncColumn(last), tail);
      ColumnsInvert(data, o, columns, init, EncColumn(last) + tail);
      ColumnInverts(data, o + |EncColumns(init)|, last, tail, ColumnName(columns, |t| - 1), RowOf(columns, init));
    }
  }

  /** An encoded tuple followed by any tail reads back as itself and exactly its end offset. */
  lemma {:induction false} TupleInverts(data: Bytes, o: nat, columns: seq<Column>, t: seq<ColumnData>, tail: Bytes)
    requires FitsTuple(t) && At(data, o, EncTuple(t), tail)
    ensures ReadTuple(data, o, columns) == Ok(RowOf(columns, t), o + |EncTuple(t)|)
    ensures o + |EncTuple(t)| <= |data| && data[o + |EncTuple(t)|..] == tail
  {
    hide Enc16, U16, EncColumns, ReadColumns, FitsColumn;
    AtSplit(data, o, Enc16(|t|), EncColumns(t), tail);
    Read16(data, o, |t|, EncColumns(t) + tail);
    ColumnsInvert(data, o + 2, columns, t, tail);
  }

  // ---- Relations read back --------------------------------------------------------------------------------

  lemma RelColumnInverts(data: Bytes, o: nat, c: RelationColumn, tail: Bytes, columns: seq<Column>)
    requires FitsRelColumn(c) && At(data, o, EncRelColumn(c), tail)
    ensures ReadRelColumn(data, o, columns) == Ok(columns + [ColumnOf(c)], o + |EncRelColumn(c)|)
    ensures o + |EncRelColumn(c)| <= |data| && data[o + |EncRelColumn(c)|..] == tail
  {
    hide Enc32, U32, ReadCString, Chars, WireName, At;
    var name, ids := c.name + [0], Enc32(c.typeOid) + Enc32(c.typeMod);
    assert EncRelColumn(c) == [c.flags] + (name + ids);
    AtSplit(data, o, [c.flags], name + ids, tail);
    AtBytes(data, o, [c.flags], name + ids + tail);
    assert data[o + 0] == [c.flags][0];
    AtSplit(data, o + 1, name, ids, tail);
    CStringInverts(data, o + 1, c.name, ids + tail);
    var next := o + 1 + |name|;
    AtSplit(data, next, Enc32(c.typeOid), Enc32(c.typeMod), tail);
    Read32(data, next, c.typeOid, Enc32(c.typeMod) + tail);
    Read32(data, next + 4, c.typeMod, tail);
  }

  lemma {:induction false} RelColumnsInvert(data: Bytes, o: nat, cs: seq<RelationColumn>, tail: Bytes)
    requires (forall i :: 0 <= i < |cs| ==> FitsRelColumn(cs[i])) && At(data, o, EncRelColumns(cs), tail)
    ensures ReadRelColumns(data, o, |cs|) == Ok(ColumnsOf(cs), o + |EncRelColumns(cs)|)
    ensures o + |EncRelColumns(cs)| <= |data| && data[o + |EncRelColumns(cs)|..] == tail
  {
    hide ReadRelColumn, EncRelColumn, FitsRelColumn, ColumnOf;
    if cs == [] {
      assert data[o..] == [] + tail == tail;
    } else {
      var init, last := cs[..|cs| - 1], cs[|cs| - 1];
      AtSplit(data, o, EncRelColumns(init), EncRelColumn(last), tail);
      RelColumnsInvert(data, o, init, EncRelColumn(last) + tail);
      RelColumnInverts(data, o + |EncRelColumns(init)|, last, tail, ColumnsOf(init));
    }
  }

  // ---- Messages read back -----------------------------------------------------------------------------------

  lemma WholeAt(data: Bytes, part: Bytes, tail: Bytes)
    requires data == part + tail
    ensures At(data, 0, part, tail)
  {
    assert data[0..] == data;
  }

  lemma RelationHeader(data: Bytes, oid: nat, ns: Bytes, table: Bytes, identity: byte, rest: Bytes)
    requires oid < U32_LIMIT && WireName(ns) && WireName(table)
    requires data == Enc32(oid) + ((ns + [0]) + ((table + [0]) + ([identity] + rest)))
    ensures |data| >= 4 && U32(data, 0) == oid
    ensures ReadCString(data, 4) == Ok(Chars(ns), 5 + |ns|)
    ensures ReadCString(data, 5 + |ns|) == Ok(Chars(table), 6 + |ns| + |table|)
    ensures 7 + |ns| + |table| <= |data| && data[7 + |ns| + |table|..] == rest
  {
    hide *;
    OidThenName(data, oid, ns, (table + [0]) + ([identity] + rest));
    NameThenByte(data, 5 + |ns|, table, identity, rest);
  }

  lemma OidThenName(data: Bytes, oid: nat, name: Bytes, tail: Bytes)
    requires oid < U32_LIMIT && WireName(name) && data == Enc32(oid) + ((name + [0]) + tail)
    ensures |data| >= 4 && U32(data, 0) == oid && ReadCString(data, 4) == Ok(Chars(name), 5 + |name|)
    ensures 5 + |name| <= |data| && data[5 + |name|..] == tail
  {
    hide *;
    OidInverts(data, oid, (name + [0]) + tail);
    NameInverts(data, 4, name, tail);
  }

  lemma NameThenByte(data: Bytes, o: nat, name: Bytes, b: byte, rest: Bytes)
    requires WireName(name) && o <= |data| && data[o..] == (name + [0]) + ([b] + rest)
    ensures ReadCString(data, o) == Ok(Chars(name), o + |name| + 1)
    ensures o + |name| + 2 <= |data| && data[o + |name| + 2..] == rest
  {
    hide *;
    NameInverts(data, o, name, [b] + rest);
    PastOne(data, o + |name| + 1, b, rest);
  }

  lemma NameInverts(data: Bytes, o: nat, name: Bytes, tail: Bytes)
    requires WireName(name) && o <= |data| && data[o..] == (name + [0]) + tail
    ensures ReadCString(data, o) == Ok(Chars(name), o + |name| + 1)
    ensures o + |name| + 1 <= |data| && data[o + |name| + 1..] == tail
  {
    hide *;
    AtHere(data, o, name + [0], tail);
    CStringInverts(data, o, name, tail);
  }

  lemma PastOne(data: Bytes, o: nat, b: byte, rest: Bytes)
    requires o <= |data| && data[o..] == [b] + rest
    ensures o + 1 <= |data| && data[o + 1..] == rest
  {
    assert data[o + 1..] == data[o..][1..];
  }

  lemma AtHere(data: Bytes, o: nat, part: Bytes, tail: Bytes)
    requires o <= |data| && data[o..] == part + tail
    ensures At(data, o, part, tail)
  {
  }

  lemma {:induction false} RelationInverts(m: Msg, data: Bytes)
    requires m.RelationMsg? && WellFormed(m) && data == Encode(m)[1..]
    ensures ReadRelation(data).Ok?
    ensures ReadRelation(data).value == Relation(m.oid, Chars(m.namespace), Chars(m.table), ColumnsOf(m.columns))
  {
    hide Enc32, Enc16, U32, U16, ReadCString, Chars, WireName, FitsRelColumn, EncRelColumns, ReadRelColumns, ColumnsOf;
    var rest := Enc16(|m.columns|) + EncRelColumns(m.columns);
    RelationHeader(data, m.oid, m.namespace, m.table, m.identity, rest);
    RelationTail(data, 7 + |m.namespace| + |m.table|, m.columns);
  }

  lemma RelationTail(data: Bytes, o: nat, columns: seq<RelationColumn>)
    requires |columns| < 0x1_0000 && forall i :: 0 <= i < |columns| ==> FitsRelColumn(columns[i])
    requires o <= |data| && data[o..] == Enc16(|columns|) + EncRelColumns(columns)
    ensures o + 2 <= |data| && U16(data, o) == |columns|
    ensures ReadRelColumns(data, o + 2, |columns|).Ok?
    ensures ReadRelColumns(data, o + 2, |columns|).value == ColumnsOf(columns)
  {
    hide *;
    var cols := EncRelColumns(columns);
    AtHere(data, o, Enc16(|columns|), cols);
    Read16(data, o, |columns|, cols);
    assert cols + [] == cols;
    AtHere(data, o + 2, cols, []);
    RelColumnsInvert(data, o + 2, columns, []);
  }

  lemma {:induction false} BeginInverts(s: ParserState, m: Msg, data: Bytes)
    requires m.BeginMsg? && WellFormed(m) && data == Encode(m)[1..]
    ensures HandleBegin(s, data) == Step(ParserState(s.relations, m.commitTs + PG_EPOCH_US, m.finalLsn), Nothing)
  {
    hide Enc64, Enc32, U64;
    var ts := if m.commitTs >= 0 then m.commitTs else m.commitTs + U64_LIMIT;
    assert data == Enc64(m.finalLsn) + (Enc64(ts) + Enc32(m.xid));
    BeginBytes(data, m.finalLsn, ts, Enc32(m.xid));
  }

  lemma BeginBytes(data: Bytes, lsn: nat, ts: nat, rest: Bytes)
    requires lsn < U64_LIMIT && ts < U64_LIMIT && data == Enc64(lsn) + (Enc64(ts) + rest)
    ensures |data| >= 16 && U64(data, 0) == lsn && U64(data, 8) == ts
  {
    hide Enc64, U64;
    WholeAt(data, Enc64(lsn), Enc64(ts) + rest);
    Read64(data, 0, lsn, Enc64(ts) + rest);
    Read64(data, 8, ts, rest);
  }

  /** The OID that leads every change message. */
  lemma OidInverts(data: Bytes, oid: nat, rest: Bytes)
    requires oid < U32_LIMIT && data == Enc32(oid) + rest
    ensures |data| >= 4 && U32(data, 0) == oid && data[4..] == rest
  {
    WholeAt(data, Enc32(oid), rest);
    Read32(data, 0, oid, rest);
  }

  lemma InsertInverts(s: ParserState, m: Msg, data: Bytes, lsn: nat)
    requires m.InsertMsg? && WellFormed(m) && data == Encode(m)[1..]
    ensures HandleInsert(s, data, lsn) == ReplyOf(Denotes(s, m, lsn).1)
  {
    hide Enc32, U32, ReadTuple, EncTuple, FitsTuple, RowOf;
    OidInverts(data, m.oid, EncNew(m.new_));
    assert data[4] == data[4..][0] == Ascii('N');
    if m.oid in s.relations {
      assert data[5..] == EncTuple(m.new_) + [] by { assert data[5..] == data[4..][1..]; }
      TupleInverts(data, 5, s.relations[m.oid].columns, m.new_, []);
    }
  }

  function ReplyOf(e: Option<ChangeEvent>): Reply { if e.Some? then Got(e.value) else Nothing }

  lemma NewTupleInverts(s: ParserState, data: Bytes, o: nat, r: Relation, before: Option<Dict>, t: seq<ColumnData>,
                        lsn: nat)
    requires FitsTuple(t) && o <= |data| && data[o..] == EncNew(t)
    ensures NewTuple(s, data, o, r, before, lsn) == Got(Event(s, Update, r, before, Some(RowOf(r.columns, t)), lsn))
  {
    hide ReadTuple, EncTuple, FitsTuple, RowOf;
    assert data[o] == data[o..][0];
    assert data[o + 1..] == EncTuple(t) + [] by { assert data[o + 1..] == data[o..][1..]; }
    TupleInverts(data, o + 1, r.columns, t, []);
  }

  /** The old tuple of an Update or a Delete, whatever follows it. */
  lemma OldInverts(data: Bytes, o: OldTuple, columns: seq<Column>, tail: Bytes)
    requires FitsTuple(o.columns) && |data| >= 4 && data[4..] == EncOld(o) + tail
    ensures |data| >= 5 && IsOldKind(data[4]) && ReadTuple(data, 5, columns).Ok?
    ensures var r := ReadTuple(data, 5, columns);
            r.value == RowOf(columns, o.columns) && r.next <= |data| && data[r.next..] == tail
  {
    hide ReadTuple, EncTuple, FitsTuple, RowOf;
    assert data[4] == data[4..][0] == OldKind(o.full);
    assert data[5..] == EncTuple(o.columns) + tail by { assert data[5..] == data[4..][1..]; }
    TupleInverts(data, 5, columns, o.columns, tail);
  }

  lemma {:induction false} UpdateInverts(s: ParserState, m: Msg, data: Bytes, lsn: nat)
    requires m.UpdateMsg? && WellFormed(m) && data == Encode(m)[1..]
    ensures HandleUpdate(s, data, lsn) == ReplyOf(Denotes(s, m, lsn).1)
  {
    hide Enc32, EncOld, EncNew, FitsTuple, HandleUpdate;
    if m.old_.Some? {
      UpdateWithOld(s, m, data, lsn);
    } else {
      UpdateWithoutOld(s, m, data, lsn);
    }
  }

  lemma UpdateWithOld(s: ParserState, m: Msg, data: Bytes, lsn: nat)
    requires m.UpdateMsg? && m.old_.Some? && WellFormed(m)
    requires data == Enc32(m.oid) + (EncOld(m.old_.value) + EncNew(m.new_))
    ensures HandleUpdate(s, data, lsn) == ReplyOf(Denotes(s, m, lsn).1)
  {
    hide Enc32, U32, ReadTuple, EncNew, FitsTuple, RowOf, NewTuple, EncOld, IsOldKind;
    OidInverts(data, m.oid, EncOld(m.old_.value) + EncNew(m.new_));
    if m.oid in s.relations {
      var r, o := s.relations[m.oid], m.old_.value;
      OldInverts(data, o, r.columns, EncNew(m.new_));
      NewTupleInverts(s, data, ReadTuple(data, 5, r.columns).next, r, Some(RowOf(r.columns, o.columns)), m.new_, lsn);
    }
  }

  lemma UpdateWithoutOld(s: ParserState, m: Msg, data: Bytes, lsn: nat)
    requires m.UpdateMsg? && m.old_.None? && WellFormed(m)
    requires data == Enc32(m.oid) + EncNew(m.new_)
    ensures HandleUpdate(s, data, lsn) == ReplyOf(Denotes(s, m, lsn).1)
  {
    hide Enc32, U32, ReadTuple, EncTuple, FitsTuple, RowOf, NewTuple, IsOldKind;
    OidInverts(data, m.oid, EncNew(m.new_));
    if m.oid in s.relations {
      assert data[4] == data[4..][0] == Ascii('N');
      NotOldKind();
      NewTupleInverts(s, data, 4, s.relations[m.oid], None, m.new_, lsn);
    }
  }

  lemma NotOldKind()
    ensures !IsOldKind(Ascii('N'))
  {
  }

  lemma {:induction false} DeleteInverts(s: ParserState, m: Msg, data: Bytes, lsn: nat)
    requires m.DeleteMsg? && WellFormed(m) && data == Encode(m)[1..]
    ensures HandleDelete(s, data, lsn) == ReplyOf(Denotes(s, m, lsn).1)
  {
    hide Enc32, U32, ReadTuple, EncOld, FitsTuple, RowOf, IsOldKind;
    assert data == Enc32(m.oid) + EncOld(m.gone);
    OidInverts(data, m.oid, EncOld(m.gone));
    if m.oid in s.relations {
      assert data[4..] == EncOld(m.gone) + [];
      OldInverts(data, m.gone, s.relations[m.oid].columns, []);
    }
  }

  /** Parsing an encoded message does exactly what the message denotes. */
  lemma ParseInverts(s: ParserState, m: Msg, lsn: nat)
    requires WellFormed(m)
    ensures Parse(s, Encode(m), lsn) == Step(Denotes(s, m, lsn).0, ReplyOf(Denotes(s, m, lsn).1))
  {
    hide HandleBegin, HandleInsert, HandleUpdate, HandleDelete, ReadRelation, EncTuple, EncOld, Enc32, Enc64, RowOf,
      ChangeMeans;
    var data := Encode(m);
    match m
    case BeginMsg(_, _, _) => BeginInverts(s, m, data[1..]);
    case RelationMsg(_, _, _, _, _) => RelationInverts(m, data[1..]);
    case InsertMsg(_, _) => InsertInverts(s, m, data[1..], lsn);
    case UpdateMsg(_, _, _) => UpdateInverts(s, m, data[1..], lsn);
    case DeleteMsg(_, _) => DeleteInverts(s, m, data[1..], lsn);
    case TruncateMsg(_, _) =>
    case OtherMsg(_, _) =>
  }
}
