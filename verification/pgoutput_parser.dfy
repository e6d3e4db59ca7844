/** The stateful parser object, its loops included, proved against the functions of `Parser`. */
module Decoding {
  import opened Values
  import opened Events
  import opened Utf8
  import opened Wire
  import opened Parser

  class PgOutputParser {
    var relations: map<nat, Relation>
    var currentTsUs: int
    var currentCommitLsn: nat

    function State(): ParserState
      reads this
    {
      ParserState(relations, currentTsUs, currentCommitLsn)
    }

    constructor ()
      ensures State() == FRESH
    {
      relations := map[];
      currentTsUs := 0;
      currentCommitLsn := 0;
    }

    /** The body of the loop over the columns of a tuple. */
    method ReadColumnAt(data: Bytes, start: nat, name: string, row0: Dict) returns (r: Read<Dict>)
      ensures r == ReadColumn(data, start, name, row0)
    {
      hide Put, U32, SliceOf, Chars;
      if start >= |data| {
        return Bad;
      }
      var row, offset := row0, start + 1;
      var kind := data[start] as char;
      if kind == 'n' || kind == 'u' {
        row := Put(row, name, Null);
      } else if kind == 't' || kind == 'b' {
        if offset + 4 > |data| {
          return Bad;
        }
        var len := U32(data, offset);
        offset := offset + 4;
        var raw := SliceOf(data, offset, len);
        offset := offset + len;
        row := Put(row, name, if kind == 't' then Text(Chars(raw)) else Binary(raw));
      }
      r := Ok(row, offset);
    }

    method ReadTupleAt(data: Bytes, start: nat, relation: Relation) returns (r: Read<Dict>)
      ensures r == ReadTuple(data, start, relation.columns)
    {
      hide U16, ColumnName, ReadColumn, ReadColumns;
      if start + 2 > |data| {
        return Bad;
      }
      var numCols := U16(data, start);
      var offset: nat := start + 2;
      var row: Dict := EMPTY_DICT;
      ReadNoColumns(data, offset, relation.columns);
      for i := 0 to numCols
        invariant ReadColumns(data, start + 2, relation.columns, i) == Ok(row, offset)
      {
        ReadColumnsNext(data, start + 2, relation.columns, i, row, offset);
        var column := ReadColumnAt(data, offset, ColumnName(relation.columns, i), row);
        if column.Bad? {
          ReadColumnsStuck(data, start + 2, relation.columns, i + 1, numCols);
          return Bad;
        }
        row, offset := column.value, column.next;
      }
      r := Ok(row, offset);
    }

    method HandleBeginMessage(data: Bytes) returns (reply: Reply)
      modifies this
      ensures Step(State(), reply) == HandleBegin(old(State()), data)
    {
      if |data| < 8 {
        return Caught;
      }
      currentCommitLsn := U64(data, 0);
      if |data| < 16 {
        return Caught;
      }
      var ts := I64(data, 8);
      if ts < MIN_TS_US || ts >= MAX_TS_US {
        return Uncaught;
      }
      currentTsUs := ts + PG_EPOCH_US;
      reply := Nothing;
    }

    method ReadColumnList(data: Bytes, start: nat, numCols: nat) returns (r: Read<seq<Column>>)
      ensures r == ReadRelColumns(data, start, numCols)
    {
      hide ReadCString, U32;
      var offset: nat := start;
      var columns: seq<Column> := [];
      for i := 0 to numCols
        invariant ReadRelColumns(data, start, i) == Ok(columns, offset)
      {
        if offset >= |data| {
          ReadRelColumnsStuck(data, start, i + 1, numCols);
          return Bad;
        }
        var flags := data[offset];
        var name := ReadCString(data, offset + 1);
        if name.Bad? || name.next + 4 > |data| {
          ReadRelColumnsStuck(data, start, i + 1, numCols);
          return Bad;
        }
        columns := columns + [Column(name.value, U32(data, name.next), flags % 2 == 1)];
        offset := name.next + 8;
      }
      r := Ok(columns, offset);
    }

    method HandleRelationMessage(data: Bytes) returns (reply: Reply)
      modifies this
      ensures Step(State(), reply) == HandleRelation(old(State()), data)
    {
      hide ReadCString, U32, U16, ReadRelColumns;
      if |data| < 4 {
        return Caught;
      }
      var oid := U32(data, 0);
      var namespace := ReadCString(data, 4);
      if namespace.Bad? {
        return Caught;
      }
      var table := ReadCString(data, namespace.next);
      if table.Bad? {
        return Caught;
      }
      var offset := table.next + 1;
      if offset + 2 > |data| {
        return Caught;
      }
      var columns := ReadColumnList(data, offset + 2, U16(data, offset));
      if columns.Bad? {
        return Caught;
      }
      relations := relations[oid := Relation(oid, namespace.value, table.value, columns.value)];
      reply := Nothing;
    }

    method HandleInsertMessage(data: Bytes, lsn: nat) returns (reply: Reply)
      ensures reply == HandleInsert(State(), data, lsn)
    {
      hide ReadTuple, U32;
      if |data| < 4 {
        return Caught;
      }
      var oid := U32(data, 0);
      if oid !in relations {
        return Nothing;
      }
      if |data| < 5 {
        return Caught;
      }
      if data[4] as char != 'N' {
        return Nothing;
      }
      var after := ReadTupleAt(data, 5, relations[oid]);
      if after.Bad? {
        return Caught;
      }
      reply := Got(MakeEvent(Insert, relations[oid], None, Some(after.value), lsn));
    }

    method HandleUpdateMessage(data: Bytes, lsn: nat) returns (reply: Reply)
      ensures reply == HandleUpdate(State(), data, lsn)
    {
      hide ReadTuple, U32;
      if |data| < 4 {
        return Caught;
      }
      var oid := U32(data, 0);
      if oid !in relations {
        return Nothing;
      }
      var relation := relations[oid];
      var offset := 4;
      var before: Option<Dict> := None;
      if offset >= |data| {
        return Caught;
      }
      var kind := data[offset];
      if IsOldKind(kind) {
        var oldTuple := ReadTupleAt(data, offset + 1, relation);
        if oldTuple.Bad? {
          return Caught;
        }
        before, offset := Some(oldTuple.value), oldTuple.next;
        if offset >= |data| {
          return Caught;
        }
        kind := data[offset];
      }
      var after: Option<Dict> := None;
      if kind as char == 'N' {
        var newTuple := ReadTupleAt(data, offset + 1, relation);
        if newTuple.Bad? {
          return Caught;
        }
        after := Some(newTuple.value);
      }
      reply := Got(MakeEvent(Update, relation, before, after, lsn));
    }

    method HandleDeleteMessage(data: Bytes, lsn: nat) returns (reply: Reply)
      ensures reply == HandleDelete(State(), data, lsn)
    {
      hide ReadTuple, U32;
      if |data| < 4 {
        return Caught;
      }
      var oid := U32(data, 0);
      if oid !in relations {
        return Nothing;
      }
      if |data| < 5 {
        return Caught;
      }
      var before: Option<Dict> := None;
      if IsOldKind(data[4]) {
        var oldTuple := ReadTupleAt(data, 5, relations[oid]);
        if oldTuple.Bad? {
          return Caught;
        }
        before := Some(oldTuple.value);
      }
      reply := Got(MakeEvent(Delete, relations[oid], before, None, lsn));
    }

    function MakeEvent(op: Op, relation: Relation, before: Option<Dict>, after: Option<Dict>, lsn: nat): ChangeEvent
      reads this
    {
      ChangeEvent(op, relation.namespace, relation.table, before, after, lsn, currentTsUs, currentCommitLsn)
    }

    method ParseMessage(data: Bytes, lsn: nat) returns (reply: Reply)
      modifies this
      ensures Step(State(), reply) == Parse(old(State()), data, lsn)
    {
      hide HandleBegin, HandleRelation, HandleInsert, HandleUpdate, HandleDelete;
      if data == [] {
        return Nothing;
      }
      var tag, body := data[0] as char, data[1..];
      if tag == 'B' {
        reply := HandleBeginMessage(body);
      } else if tag == 'R' {
        reply := HandleRelationMessage(body);
      } else if tag == 'I' {
        reply := HandleInsertMessage(body, lsn);
      } else if tag == 'U' {
        reply := HandleUpdateMessage(body, lsn);
      } else if tag == 'D' {
        reply := HandleDeleteMessage(body, lsn);
      } else {
        reply := Nothing;
      }
    }
  }

  lemma ReadNoColumns(data: Bytes, o: nat, columns: seq<Column>)
    ensures ReadColumns(data, o, columns, 0) == Ok(EMPTY_DICT, o)
  {
  }

  lemma ReadColumnsNext(data: Bytes, o: nat, columns: seq<Column>, i: nat, row: Dict, next: nat)
    requires ReadColumns(data, o, columns, i) == Ok(row, next)
    ensures ReadColumns(data, o, columns, i + 1) == ReadColumn(data, next, ColumnName(columns, i), row)
  {
    hide ReadColumn, ColumnName;
  }

  /** An exception in the middle of a tuple ends it. */
  lemma {:induction false} ReadColumnsStuck(data: Bytes, o: nat, columns: seq<Column>, i: nat, n: nat)
    requires i <= n && ReadColumns(data, o, columns, i).Bad?
    ensures ReadColumns(data, o, columns, n).Bad?
  {
    if i == n {
    } else {
      ReadColumnsStuck(data, o, columns, i, n - 1);
    }
  }

  lemma {:induction false} ReadRelColumnsStuck(data: Bytes, o: nat, i: nat, n: nat)
    requires i <= n && ReadRelColumns(data, o, i).Bad?
    ensures ReadRelColumns(data, o, n).Bad?
  {
    if i == n {
    } else {
      ReadRelColumnsStuck(data, o, i, n - 1);
    }
  }
}
