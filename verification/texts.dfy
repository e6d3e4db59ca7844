/**
 What a text is when the decoder hands it on: the text that the server encoded. And some messages
 byte by byte, so that the layout does not rest on the encoder alone.
 */
module Texts {
  import opened Values
  import opened Utf8
  import opened Events
  import opened Wire
  import opened Parser
  import opened Codec
  import opened Source

  // ---- Whole messages of texts ---------------------------------------------------------------

  const TEXT_OID := 25
  const NO_MODIFIER := 0xFFFF_FFFF

  function RelationColumns(names: seq<string>): seq<RelationColumn> {
    seq(|names|, i requires 0 <= i < |names| => RelationColumn(0, EncText(names[i]), TEXT_OID, NO_MODIFIER))
  }

  /** The server announces a table. */
  function Announcement(oid: nat, schema: string, table: string, names: seq<string>): Msg {
    RelationMsg(oid, EncText(schema), EncText(table), Ascii('d'), RelationColumns(names))
  }

  /** What the server can send of a value: NULL, a text, or raw bytes. */
  predicate Sendable(v: Value) { v.Null? || v.Text? || v.Binary? }

  function CellOf(v: Value): ColumnData
    requires Sendable(v)
  {
    match v
    case Null => NullColumn
    case Text(t) => TextColumn(EncText(t))
    case Binary(raw) => BinaryColumn(raw)
  }

  function Cells(vals: seq<Value>): seq<ColumnData>
    requires forall i :: 0 <= i < |vals| ==> Sendable(vals[i])
  {
    seq(|vals|, i requires 0 <= i < |vals| => CellOf(vals[i]))
  }

  predicate NoNul(t: string) { 0 as char !in t }

  predicate FitNames(schema: string, table: string, names: seq<string>) {
    && NoNul(schema) && NoNul(table) && |names| < U16_LIMIT
    && (forall i :: 0 <= i < |names| ==> NoNul(names[i]))
  }

  predicate FitValues(vals: seq<Value>) {
    |vals| < U16_LIMIT && forall i :: 0 <= i < |vals| ==> Sendable(vals[i]) && FitsColumn(CellOf(vals[i]))
  }

  lemma NameFits(t: string)
    requires NoNul(t)
    ensures WireName(EncText(t))
  {
    hide EncText, ValidUtf8;
    TextInverts(t);
    TextHasNul(t);
  }

  lemma AnnouncementFits(oid: nat, schema: string, table: string, names: seq<string>)
    requires oid < U32_LIMIT && FitNames(schema, table, names)
    ensures WellFormed(Announcement(oid, schema, table, names))
  {
    hide WireName, EncText;
    NameFits(schema);
    NameFits(table);
    forall i | 0 <= i < |names| ensures WireName(EncText(names[i])) {
      NameFits(names[i]);
    }
  }

  lemma {:induction false} ColumnsNamed(cs: seq<RelationColumn>, names: seq<string>)
    requires |cs| == |names| && forall i :: 0 <= i < |cs| ==> cs[i].name == EncText(names[i])
    ensures |ColumnsOf(cs)| == |names| && forall i :: 0 <= i < |names| ==> ColumnsOf(cs)[i].name == names[i]
  {
    hide EncText;
    if cs != [] {
      var n := |cs| - 1;
      ColumnsNamed(cs[..n], names[..n]);
      TextInverts(names[n]);
    }
  }

  /** The relation under the names that were encoded. */
  lemma AnnouncementMeans(oid: nat, schema: string, table: string, names: seq<string>)
    ensures var m := Announcement(oid, schema, table, names);
            && Chars(m.namespace) == schema && Chars(m.table) == table
            && |ColumnsOf(m.columns)| == |names|
            && forall i :: 0 <= i < |names| ==> ColumnsOf(m.columns)[i].name == names[i]
  {
    hide EncText;
    TextInverts(schema);
    TextInverts(table);
    ColumnsNamed(RelationColumns(names), names);
  }

  /** The names and the values of a row, as they were encoded. */
  ghost predicate Carries(row: Dict, names: seq<string>, vals: seq<Value>) {
    && |names| == |vals| && row.keys == names
    && forall i :: 0 <= i < |names| ==>
         names[i] in row.at && row.at[names[i]] == vals[i]
  }

  lemma {:induction false} CellMeans(columns: seq<Column>, vals: seq<Value>, i: nat)
    requires |columns| == |vals| && Distinct(Names(columns)) && i < |vals|
    requires forall j :: 0 <= j < |vals| ==> Sendable(vals[j])
    ensures var row, name := TrueRow(columns, Cells(vals), EMPTY_DICT), columns[i].name;
            name in row.at && row.at[name] == vals[i]
  {
    hide EncText, Distinct, TrueRow, Chars;
    TrueAt(columns, Cells(vals), EMPTY_DICT, i);
    if vals[i].Text? {
      TextInverts(vals[i].text);
    }
  }

  lemma CellsMean(columns: seq<Column>, names: seq<string>, vals: seq<Value>)
    requires |columns| == |vals| && Names(columns) == names && Distinct(names)
    requires forall j :: 0 <= j < |vals| ==> Sendable(vals[j])
    ensures Carries(RowOf(columns, Cells(vals)), names, vals)
  {
    hide EncText, Distinct, TrueRow, RowOf, Cells, Sendable, Names;
    assert |names| == |vals| by { NamesCount(columns); }
    assert |Cells(vals)| == |vals| by { CellCount(vals); }
    DecodedIsTrueOfNothing(columns, Cells(vals));
    TrueShape(columns, Cells(vals), EMPTY_DICT);
    forall i | 0 <= i < |names|
      ensures var row := TrueRow(columns, Cells(vals), EMPTY_DICT);
              names[i] in row.at && row.at[names[i]] == vals[i]
    {
      CellMeans(columns, vals, i);
      NameOf(columns, i);
    }
  }

  lemma NamesCount(columns: seq<Column>)
    ensures |Names(columns)| == |columns|
  {
  }

  lemma NameOf(columns: seq<Column>, i: nat)
    requires i < |columns|
    ensures |Names(columns)| == |columns| && Names(columns)[i] == columns[i].name
  {
  }

  lemma FitIsSendable(vals: seq<Value>)
    requires FitValues(vals)
    ensures forall j :: 0 <= j < |vals| ==> Sendable(vals[j])
  {
  }

  lemma CellCount(vals: seq<Value>)
    requires forall j :: 0 <= j < |vals| ==> Sendable(vals[j])
    ensures |Cells(vals)| == |vals|
  {
  }

  /**
   Reading a table's announcement and then an insert into it gives an event with the names and the
   values that the server encoded, whatever texts they are.
   */
  lemma {:induction false} InsertOfTexts(s: ParserState, oid: nat, schema: string, table: string, names: seq<string>,
                                         vals: seq<Value>, lsn: nat)
    requires oid < U32_LIMIT && FitNames(schema, table, names) && FitValues(vals)
    requires |names| == |vals| && Distinct(names)
    ensures forall j :: 0 <= j < |vals| ==> Sendable(vals[j])
    ensures WellFormed(Announcement(oid, schema, table, names)) && WellFormed(InsertMsg(oid, Cells(vals)))
    ensures var announced := Parse(s, Encode(Announcement(oid, schema, table, names)), lsn);
            var inserted := Parse(announced.state, Encode(InsertMsg(oid, Cells(vals))), lsn);
            && announced.reply.Nothing? && inserted.reply.Got? && inserted.state == announced.state
            && var e := inserted.reply.event;
               && e == ChangeEvent(Insert, schema, table, None, e.after, lsn, s.tsUs, s.commitLsn)
               && e.after.Some? && Carries(e.after.value, names, vals)
  {
    hide *;
    FitIsSendable(vals);
    var announcement, insert := Announcement(oid, schema, table, names), InsertMsg(oid, Cells(vals));
    AnnouncementFits(oid, schema, table, names);
    ValuesFit(oid, vals);
    ParseInverts(s, announcement, lsn);
    var announced := Parse(s, Encode(announcement), lsn).state;
    ParseInverts(announced, insert, lsn);
    AnnouncementDenotes(s, oid, schema, table, names, lsn);
    var columns := announced.relations[oid].columns;
    CellsMean(columns, names, vals);
    InsertDenotes(announced, oid, Cells(vals), lsn);
  }

  lemma AnnouncementDenotes(s: ParserState, oid: nat, schema: string, table: string, names: seq<string>, lsn: nat)
    ensures var (s', e) := Denotes(s, Announcement(oid, schema, table, names), lsn);
            && ReplyOf(e).Nothing? && oid in s'.relations && s'.tsUs == s.tsUs && s'.commitLsn == s.commitLsn
            && var r := s'.relations[oid];
               r.namespace == schema && r.table == table && |r.columns| == |names| && Names(r.columns) == names
  {
    hide EncText, ColumnsOf, RelationColumns;
    AnnouncementMeans(oid, schema, table, names);
  }

  lemma InsertDenotes(s: ParserState, oid: nat, cells: seq<ColumnData>, lsn: nat)
    requires oid in s.relations
    ensures var (s', e), r := Denotes(s, InsertMsg(oid, cells), lsn), s.relations[oid];
            && s' == s
            && ReplyOf(e) == Got(ChangeEvent(Insert, r.namespace, r.table, None, Some(RowOf(r.columns, cells)), lsn,
                                             s.tsUs, s.commitLsn))
  {
    hide RowOf;
  }

  lemma ValuesFit(oid: nat, vals: seq<Value>)
    requires oid < U32_LIMIT && FitValues(vals)
    ensures forall j :: 0 <= j < |vals| ==> Sendable(vals[j])
    ensures WellFormed(InsertMsg(oid, Cells(vals)))
  {
    hide EncText;
  }

  /** A text read as a decimal number. */
  function NumberOf(t: string): int {
    if t == [] then 0 else 10 * NumberOf(t[..|t| - 1]) + (t[|t| - 1] as int - '0' as int)
  }

  lemma {:induction false} DecimalReads(n: nat)
    ensures Decimal(n) != [] && NumberOf(Decimal(n)) == n
    ensures forall i :: 0 <= i < |Decimal(n)| ==> '0' <= Decimal(n)[i] <= '9'
  {
    if n < 10 {
      assert [Digit(n)][..0] == [];
    } else {
      DecimalReads(n / 10);
      var init := Decimal(n / 10);
      assert Decimal(n) == init + [Digit(n % 10)] && Decimal(n)[..|init|] == init;
    }
  }

  /** A value beyond the relation's columns goes under `col_` and its position. */
  lemma ExtraColumnName(columns: seq<Column>, i: nat)
    requires i >= |columns|
    ensures var name := ColumnName(columns, i);
            && |name| > 4 && name[..4] == "col_" && NumberOf(name[4..]) == i
            && forall j :: 4 <= j < |name| ==> '0' <= name[j] <= '9'
  {
    DecimalReads(i);
    var name := ColumnName(columns, i);
    assert name == "col_" + Decimal(i) && name[4..] == Decimal(i);
  }

  // ---- Messages byte by byte ---------------------------------------------------------------------

  /** An integer of any width is read most significant byte first. */
  function BigEndian(bs: Bytes): nat {
    if bs == [] then 0 else BigEndian(bs[..|bs| - 1]) * 0x100 + bs[|bs| - 1] as nat
  }

  lemma IntegersAreBigEndian(data: Bytes, o: nat)
    ensures o + 2 <= |data| ==> U16(data, o) == BigEndian(data[o..o + 2])
    ensures o + 4 <= |data| ==> U32(data, o) == BigEndian(data[o..o + 4])
    ensures o + 8 <= |data| ==> U64(data, o) == BigEndian(data[o..o + 8])
  {
    if o + 2 <= |data| { TwoMore(data, o, 0); assert data[o..o] == []; }
    if o + 4 <= |data| { TwoMore(data, o, 2); }
    if o + 8 <= |data| { TwoMore(data, o, 4); TwoMore(data, o, 6); U32Of(data, o); U32Of(data, o + 4); }
  }

  lemma U32Of(data: Bytes, o: nat)
    requires o + 4 <= |data|
    ensures U32(data, o) == U16(data, o) * 0x1_0000 + U16(data, o + 2)
  {
  }

  lemma TwoMore(data: Bytes, o: nat, n: nat)
    requires o + n + 2 <= |data|
    ensures BigEndian(data[o..o + n + 2]) == BigEndian(data[o..o + n]) * 0x1_0000 + U16(data, o + n)
  {
    var two, one := data[o..o + n + 2], data[o..o + n + 1];
    assert two[..|two| - 1] == one && one[..|one| - 1] == data[o..o + n];
  }

  lemma Spelled(t: string, bs: Bytes)
    requires |t| == |bs| && forall i :: 0 <= i < |t| ==> t[i] < 128 as char && bs[i] as int == t[i] as int
    ensures EncText(t) == bs && Chars(bs) == t && ValidUtf8(bs)
  {
    hide EncText, Chars, ValidUtf8;
    AsciiText(t);
    TextInverts(t);
  }

  lemma SmallNumbers(n: nat)
    requires n < 0x100
    ensures Enc16(n) == [0, n as byte] && Enc32(n) == [0, 0, 0, n as byte]
  {
  }

  const PUBLIC: Bytes := [0x70, 0x75, 0x62, 0x6C, 0x69, 0x63]
  const CUSTOMERS: Bytes := [0x63, 0x75, 0x73, 0x74, 0x6F, 0x6D, 0x65, 0x72, 0x73]

  const ID_COLUMN := RelationColumn(1, [0x69, 0x64], 0x19, 0xFFFF_FFFF)
  const CUSTOMERS_MSG := RelationMsg(1, PUBLIC, CUSTOMERS, 0x64, [ID_COLUMN])
  const CUSTOMERS_RELATION := Relation(1, "public", "customers", [Column("id", 25, true)])

  /** One column: part of the key, `id`, of type 25. */
  const ID_BYTES: Bytes := [1, 0x69, 0x64, 0, 0, 0, 0, 0x19, 0xFF, 0xFF, 0xFF, 0xFF]

  /** `R`, OID 1, `public`, `customers`, identity `d`, one column. */
  const RELATION_BYTES: Bytes :=
    [0x52] + ([0, 0, 0, 1] + ((PUBLIC + [0]) + ((CUSTOMERS + [0]) + ([0x64] + ([0, 1] + ID_BYTES)))))

  lemma ColumnOnTheWire()
    ensures FitsRelColumn(ID_COLUMN) && EncRelColumns([ID_COLUMN]) == ID_BYTES
    ensures ColumnsOf([ID_COLUMN]) == [Column("id", 25, true)]
  {
    hide Chars, ValidUtf8;
    Spelled("id", [0x69, 0x64]);
    SmallNumbers(0x19);
    assert Enc32(0xFFFF_FFFF) == [0xFF, 0xFF, 0xFF, 0xFF];
    assert [ID_COLUMN][..0] == [];
  }

  lemma NamesOnTheWire()
    ensures WireName(PUBLIC) && WireName(CUSTOMERS)
  {
    hide WireName;
    SpelledName("public", PUBLIC);
    SpelledName("customers", CUSTOMERS);
  }

  lemma SpelledName(t: string, bs: Bytes)
    requires |t| == |bs| && forall i :: 0 <= i < |t| ==> 0 < t[i] as int < 128 && bs[i] as int == t[i] as int
    ensures WireName(bs)
  {
    hide ValidUtf8, Chars, EncText;
    Spelled(t, bs);
  }

  lemma OneColumnEncoded(ns: Bytes, table: Bytes, c: RelationColumn, bs: Bytes)
    requires WireName(ns) && WireName(table) && FitsRelColumn(c) && EncRelColumns([c]) == bs
    ensures var m := RelationMsg(1, ns, table, 0x64, [c]);
            && WellFormed(m)
            && Encode(m) == [0x52] + ([0, 0, 0, 1] + ((ns + [0]) + ((table + [0]) + ([0x64] + ([0, 1] + bs)))))
  {
    hide WireName, FitsRelColumn, EncRelColumns, Enc16, Enc32;
    SmallNumbers(1);
  }

  lemma RelationEncoded()
    ensures WellFormed(CUSTOMERS_MSG) && Encode(CUSTOMERS_MSG) == RELATION_BYTES
  {
    hide Encode, WellFormed, WireName, FitsRelColumn, EncRelColumns, ColumnsOf;
    NamesOnTheWire();
    ColumnOnTheWire();
    OneColumnEncoded(PUBLIC, CUSTOMERS, ID_COLUMN, ID_BYTES);
  }

  lemma RelationDenoted(s: ParserState, ns: Bytes, table: Bytes, c: RelationColumn, lsn: nat)
    ensures var r := Relation(1, Chars(ns), Chars(table), ColumnsOf([c]));
            Denotes(s, RelationMsg(1, ns, table, 0x64, [c]), lsn) == (s.(relations := s.relations[1 := r]), None)
  {
    hide Chars, ColumnsOf;
  }

  lemma {:induction false} RelationOnTheWire(s: ParserState, lsn: nat)
    ensures Parse(s, RELATION_BYTES, lsn) == Step(s.(relations := s.relations[1 := CUSTOMERS_RELATION]), Nothing)
  {
    hide Chars, ValidUtf8, ColumnsOf, Parse, Encode, WellFormed, Denotes;
    Spelled("public", PUBLIC);
    Spelled("customers", CUSTOMERS);
    ColumnOnTheWire();
    RelationEncoded();
    ParseInverts(s, CUSTOMERS_MSG, lsn);
    RelationDenoted(s, PUBLIC, CUSTOMERS, ID_COLUMN, lsn);
  }

  /** `I`, OID 1, `N`, one column: the text `1`. */
  const INSERT_BYTES: Bytes := [0x49, 0, 0, 0, 1, 0x4E, 0, 1, 0x74, 0, 0, 0, 1, 0x31]

  const ID_CELLS := [TextColumn([0x31])]

  lemma CellsOnTheWire()
    ensures EncColumns(ID_CELLS) == [0x74, 0, 0, 0, 1, 0x31]
    ensures RowOf([Column("id", 25, true)], ID_CELLS) == RawDict(["id"], map["id" := Text("1")])
  {
    hide Chars, Enc32;
    SmallNumbers(1);
    Spelled("1", [0x31]);
    assert ID_CELLS[..0] == [];
  }

  lemma {:induction false} InsertOnTheWire(s: ParserState, lsn: nat)
    requires 1 in s.relations && s.relations[1] == CUSTOMERS_RELATION
    ensures Parse(s, INSERT_BYTES, lsn)
         == Step(s, Got(ChangeEvent(Insert, "public", "customers", None, Some(RawDict(["id"], map["id" := Text("1")])),
                                    lsn, s.tsUs, s.commitLsn)))
  {
    hide Chars, Enc32, Enc16, EncColumns, RowOf, Parse;
    CellsOnTheWire();
    SmallNumbers(1);
    ParseInverts(s, InsertMsg(1, ID_CELLS), lsn);
    assert Encode(InsertMsg(1, ID_CELLS)) == INSERT_BYTES;
  }

  /** `U`, OID 1, the key `K` of the old row, then `N` with an unchanged TOAST column. */
  const UPDATE_BYTES: Bytes :=
    [0x55, 0, 0, 0, 1, 0x4B, 0, 1, 0x74, 0, 0, 0, 1, 0x31] + [0x4E, 0, 1, 0x75]

  lemma {:induction false} UpdateOnTheWire(s: ParserState, lsn: nat)
    requires 1 in s.relations && s.relations[1] == CUSTOMERS_RELATION
    ensures Parse(s, UPDATE_BYTES, lsn)
         == Step(s, Got(ChangeEvent(Update, "public", "customers", Some(RawDict(["id"], map["id" := Text("1")])),
                                    Some(RawDict(["id"], map["id" := Null])), lsn, s.tsUs, s.commitLsn)))
  {
    hide Chars, Enc32, Enc16, EncColumns, RowOf, Parse;
    CellsOnTheWire();
    ToastOnTheWire();
    SmallNumbers(1);
    var m := UpdateMsg(1, Some(OldTuple(false, ID_CELLS)), [UnchangedToast]);
    ParseInverts(s, m, lsn);
    assert Encode(m) == UPDATE_BYTES;
  }

  lemma ToastOnTheWire()
    ensures EncColumns([UnchangedToast]) == [0x75]
    ensures RowOf([Column("id", 25, true)], [UnchangedToast]) == RawDict(["id"], map["id" := Null])
  {
    assert [UnchangedToast][..0] == [];
  }

  /** `D`, OID 1, the whole old row `O`: a NULL. */
  const DELETE_BYTES: Bytes := [0x44, 0, 0, 0, 1, 0x4F, 0, 1, 0x6E]

  lemma {:induction false} DeleteOnTheWire(s: ParserState, lsn: nat)
    requires 1 in s.relations && s.relations[1] == CUSTOMERS_RELATION
    ensures Parse(s, DELETE_BYTES, lsn)
         == Step(s, Got(ChangeEvent(Delete, "public", "customers", Some(RawDict(["id"], map["id" := Null])), None,
                                    lsn, s.tsUs, s.commitLsn)))
  {
    hide Enc32, Enc16, EncColumns, RowOf, Parse;
    NullOnTheWire();
    SmallNumbers(1);
    var m := DeleteMsg(1, OldTuple(true, [NullColumn]));
    ParseInverts(s, m, lsn);
    assert Encode(m) == DELETE_BYTES;
  }

  lemma NullOnTheWire()
    ensures EncColumns([NullColumn]) == [0x6E]
    ensures RowOf([Column("id", 25, true)], [NullColumn]) == RawDict(["id"], map["id" := Null])
  {
    assert [NullColumn][..0] == [];
  }

  /** `B`, commit LSN 1/2, one microsecond after the start of 2000, transaction 3. */
  const BEGIN_BYTES: Bytes := [0x42] + ([0, 0, 0, 1, 0, 0, 0, 2] + [0, 0, 0, 0, 0, 0, 0, 1] + [0, 0, 0, 3])

  lemma {:induction false} BeginOnTheWire(s: ParserState, lsn: nat)
    ensures Parse(s, BEGIN_BYTES, lsn) == Step(ParserState(s.relations, 946_684_800_000_001, 0x1_0000_0002), Nothing)
  {
    hide Enc64, Enc32, Parse;
    LsnOnTheWire();
    SmallNumbers(3);
    var m := BeginMsg(0x1_0000_0002, 1, 3);
    ParseInverts(s, m, lsn);
    assert Encode(m) == BEGIN_BYTES;
  }

  lemma LsnOnTheWire()
    ensures Enc64(0x1_0000_0002) == [0, 0, 0, 1, 0, 0, 0, 2] && Enc64(1) == [0, 0, 0, 0, 0, 0, 0, 1]
  {
    hide Enc32;
    SmallNumbers(0);
    SmallNumbers(1);
    SmallNumbers(2);
  }

  // ---- The calendar ----------------------------------------------------------------------------

  /** The days before a year of the proleptic Gregorian calendar, from year 1 on. */
  function DaysBefore(year: nat): nat
    requires year >= 1
  {
    var y := year - 1;
    365 * y + y / 4 - y / 100 + y / 400
  }

  const DAY_US := 24 * 60 * 60 * 1_000_000

  /** PostgreSQL's epoch is the start of 2000, Unix's that of 1970, and a `datetime` lies in years 1 to 9999. */
  lemma TimesAreTheCalendars()
    ensures PG_EPOCH_US == (DaysBefore(2000) - DaysBefore(1970)) * DAY_US
    ensures MIN_TS_US == (DaysBefore(1) - DaysBefore(2000)) * DAY_US
    ensures MAX_TS_US == (DaysBefore(10000) - DaysBefore(2000)) * DAY_US
  {
  }
}
