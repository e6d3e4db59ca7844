/**
 The pgoutput decoder. Each function says what one handler of the class does to the parser's
 state; "Logical Replication Message Formats", section 55.9 of the PostgreSQL 16 documentation,
 gives the byte layouts.
 */
module Parser {
  import opened Values
  import opened Events
  import opened Utf8
  import opened Wire

  datatype Column = Column(name: string, typeOid: nat, isKey: bool)
  datatype Relation = Relation(oid: nat, namespace: string, table: string, columns: seq<Column>)

  /** The relation cache and the transaction context. */
  datatype ParserState = ParserState(relations: map<nat, Relation>, tsUs: int, commitLsn: nat)

  const FRESH := ParserState(map[], 0, 0)

  /** An event, nothing, an exception that `parse` catches, or one that it lets through. */
  datatype Reply = Got(event: ChangeEvent) | Nothing | Caught | Uncaught

  datatype Step = Step(state: ParserState, reply: Reply)

  // ---- Tuples ---------------------------------------------------------------------------------

  function Digit(d: nat): char
    requires d < 10
  {
    '0' + d as char
  }

  function Decimal(n: nat): string {
    if n < 10 then [Digit(n)] else Decimal(n / 10) + [Digit(n % 10)]
  }

  function ColumnName(columns: seq<Column>, i: nat): string {
    if i < |columns| then columns[i].name else "col_" + Decimal(i)
  }

  /** Python slicing: a length beyond the end is cut short. */
  function SliceOf(data: Bytes, o: nat, len: nat): Bytes {
    if o >= |data| then [] else if o + len > |data| then data[o..] else data[o..o + len]
  }

  /** One column: the new row and the next offset, or an exception. */
  function ReadColumn(data: Bytes, o: nat, name: string, row: Dict): Read<Dict> {
    if o >= |data| then Bad
    else
      var kind := data[o] as char;
      if kind == 'n' || kind == 'u' then Ok(Put(row, name, Null), o + 1)
      else if kind == 't' || kind == 'b' then
        if o + 5 > |data| then Bad
        else
          var len := U32(data, o + 1);
          var raw := SliceOf(data, o + 5, len);
          Ok(Put(row, name, if kind == 't' then Text(Chars(raw)) else Binary(raw)), o + 5 + len)
      else Ok(row, o + 1)
  }

  /** The first `n` columns of a tuple body that starts at `o`. */
  function ReadColumns(data: Bytes, o: nat, columns: seq<Column>, n: nat): Read<Dict> {
    if n == 0 then Ok(EMPTY_DICT, o)
    else
      match ReadColumns(data, o, columns, n - 1)
      case Bad => Bad
      case Ok(row, next) => ReadColumn(data, next, ColumnName(columns, n - 1), row)
  }

  function ReadTuple(data: Bytes, o: nat, columns: seq<Column>): Read<Dict> {
    if o + 2 > |data| then Bad else ReadColumns(data, o + 2, columns, U16(data, o))
  }

  // ---- Begin and Relation --------------------------------------------------------------------------

  /** PostgreSQL counts microseconds from 2000-01-01, Unix from 1970-01-01. */
  const PG_EPOCH_US := 946_684_800_000_000

  /** The range of Python's `datetime`, in microseconds from 2000-01-01: years 1 to 9999. */
  const MIN_TS_US := -63_082_281_600_000_000
  const MAX_TS_US := 252_455_616_000_000_000

  function HandleBegin(s: ParserState, data: Bytes): Step {
    if |data| < 8 then Step(s, Caught)
    else
      var s1 := s.(commitLsn := U64(data, 0));
      if |data| < 16 then Step(s1, Caught)
      else
        var ts := I64(data, 8);
        if ts < MIN_TS_US || ts >= MAX_TS_US then Step(s1, Uncaught)
        else Step(s1.(tsUs := ts + PG_EPOCH_US), Nothing)
  }

  function ReadRelColumn(data: Bytes, o: nat, columns: seq<Column>): Read<seq<Column>> {
    if o >= |data| then Bad
    else
      match ReadCString(data, o + 1)
      case Bad => Bad
      case Ok(name, next) =>
        if next + 4 > |data| then Bad
        else Ok(columns + [Column(name, U32(data, next), data[o] % 2 == 1)], next + 8)
  }

  function ReadRelColumns(data: Bytes, o: nat, n: nat): Read<seq<Column>> {
    if n == 0 then Ok([], o)
    else
      match ReadRelColumns(data, o, n - 1)
      case Bad => Bad
      case Ok(columns, next) => ReadRelColumn(data, next, columns)
  }

  /** A Relation message's body, when it parses to the end. */
  function ReadRelation(data: Bytes): Read<Relation> {
    if |data| < 4 then Bad
    else
      match ReadCString(data, 4)
      case Bad => Bad
      case Ok(namespace, o1) =>
        match ReadCString(data, o1)
        case Bad => Bad
        case Ok(table, o2) =>
          if o2 + 3 > |data| then Bad
          else
            match ReadRelColumns(data, o2 + 3, U16(data, o2 + 1))
            case Bad => Bad
            case Ok(columns, next) => Ok(Relation(U32(data, 0), namespace, table, columns), next)
  }

  function HandleRelation(s: ParserState, data: Bytes): Step {
    match ReadRelation(data)
    case Bad => Step(s, Caught)
    case Ok(r, _) => Step(s.(relations := s.relations[r.oid := r]), Nothing)
  }

  // ---- Insert, Update, Delete ------------------------------------------------------------------------

  function Event(s: ParserState, op: Op, r: Relation, before: Option<Dict>, after: Option<Dict>,
                 lsn: nat): ChangeEvent {
    ChangeEvent(op, r.namespace, r.table, before, after, lsn, s.tsUs, s.commitLsn)
  }

  function HandleInsert(s: ParserState, data: Bytes, lsn: nat): Reply {
    if |data| < 4 then Caught
    else if U32(data, 0) !in s.relations then Nothing
    else if |data| < 5 then Caught
    else if data[4] as char != 'N' then Nothing
    else
      var r := s.relations[U32(data, 0)];
      match ReadTuple(data, 5, r.columns)
      case Bad => Caught
      case Ok(after, _) => Got(Event(s, Insert, r, None, Some(after), lsn))
  }

  predicate IsOldKind(b: byte) { b as char == 'K' || b as char == 'O' }

  /** The new tuple of an Update, whose kind byte is at `o`. */
  function NewTuple(s: ParserState, data: Bytes, o: nat, r: Relation, before: Option<Dict>, lsn: nat): Reply {
    if o >= |data| then Caught
    else if data[o] as char != 'N' then Got(Event(s, Update, r, before, None, lsn))
    else
      match ReadTuple(data, o + 1, r.columns)
      case Bad => Caught
      case Ok(after, _) => Got(Event(s, Update, r, before, Some(after), lsn))
  }

  function HandleUpdate(s: ParserState, data: Bytes, lsn: nat): Reply {
    if |data| < 4 then Caught
    else if U32(data, 0) !in s.relations then Nothing
    else if |data| < 5 then Caught
    else
      var r := s.relations[U32(data, 0)];
      if IsOldKind(data[4]) then
        match ReadTuple(data, 5, r.columns)
        case Bad => Caught
        case Ok(before, next) => NewTuple(s, data, next, r, Some(before), lsn)
      else NewTuple(s, data, 4, r, None, lsn)
  }

  function HandleDelete(s: ParserState, data: Bytes, lsn: nat): Reply {
    if |data| < 4 then Caught
    else if U32(data, 0) !in s.relations then Nothing
    else if |data| < 5 then Caught
    else
      var r := s.relations[U32(data, 0)];
      if IsOldKind(data[4]) then
        match ReadTuple(data, 5, r.columns)
        case Bad => Caught
        case Ok(before, _) => Got(Event(s, Delete, r, Some(before), None, lsn))
      else Got(Event(s, Delete, r, None, None, lsn))
  }

  function Parse(s: ParserState, data: Bytes, lsn: nat): Step {
    if data == [] then Step(s, Nothing)
    else
      var tag, body := data[0] as char, data[1..];
      if tag == 'B' then HandleBegin(s, body)
      else if tag == 'R' then HandleRelation(s, body)
      else if tag == 'I' then Step(s, HandleInsert(s, body, lsn))
      else if tag == 'U' then Step(s, HandleUpdate(s, body, lsn))
      else if tag == 'D' then Step(s, HandleDelete(s, body, lsn))
      else Step(s, Nothing)
  }
}
