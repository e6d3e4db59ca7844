/**
 Whole sessions of one parser. A session is the sequence of messages processed since the parser
 was created; the parser is a fold over it, and its state is determined by the latest messages.
 */
module Stream {
  import opened Values
  import opened Events
  import opened Wire
  import opened Parser
  import opened Codec

  datatype Message = Message(lsn: nat, payload: Bytes)

  /** The parser's state after processing messages, starting from `s`. */
  function StateFrom(s: ParserState, msgs: seq<Message>): ParserState {
    if msgs == [] then s
    else Parse(StateFrom(s, msgs[..|msgs| - 1]), msgs[|msgs| - 1].payload, msgs[|msgs| - 1].lsn).state
  }

  function EventOf(r: Reply): seq<ChangeEvent> {
    match r
    case Got(e) => [e]
    case _ => []
  }

  /** The events decoded meanwhile, in order. */
  function DecodedFrom(s: ParserState, msgs: seq<Message>): seq<ChangeEvent> {
    if msgs == [] then []
    else DecodedFrom(s, msgs[..|msgs| - 1]) + EventOf(ReplyTo(s, msgs))
  }

  /** The reply to the last of the messages. */
  function ReplyTo(s: ParserState, msgs: seq<Message>): Reply
    requires msgs != []
  {
    var m := msgs[|msgs| - 1];
    Parse(StateFrom(s, msgs[..|msgs| - 1]), m.payload, m.lsn).reply
  }

  function StateAfter(session: seq<Message>): ParserState { StateFrom(FRESH, session) }

  function LastReply(session: seq<Message>): Reply
    requires session != []
  {
    ReplyTo(FRESH, session)
  }

  function Decoded(session: seq<Message>): seq<ChangeEvent> { DecodedFrom(FRESH, session) }

  lemma DecodedSnoc(s: ParserState, msgs: seq<Message>, m: Message)
    ensures StateFrom(s, msgs + [m]) == Parse(StateFrom(s, msgs), m.payload, m.lsn).state
    ensures DecodedFrom(s, msgs + [m])
         == DecodedFrom(s, msgs) + EventOf(Parse(StateFrom(s, msgs), m.payload, m.lsn).reply)
  {
    assert (msgs + [m])[..|msgs|] == msgs;
  }

  /** More messages only add events. */
  lemma {:induction false} DecodedGrows(msgs: seq<Message>, more: seq<Message>)
    ensures Decoded(msgs) <= Decoded(msgs + more)
  {
    hide Parse, EventOf, ReplyTo;
    if more == [] {
      assert msgs + more == msgs;
    } else {
      assert (msgs + more)[..|msgs + more| - 1] == msgs + more[..|more| - 1];
      DecodedGrows(msgs, more[..|more| - 1]);
    }
  }

  // ---- Encoded streams -----------------------------------------------------------------------------

  datatype Sent = Sent(lsn: nat, msg: Msg)

  predicate AllWellFormed(stream: seq<Sent>) {
    forall i :: 0 <= i < |stream| ==> WellFormed(stream[i].msg)
  }

  function EncodeAll(stream: seq<Sent>): seq<Message>
    requires AllWellFormed(stream)
  {
    seq(|stream|, i requires 0 <= i < |stream| => Message(stream[i].lsn, Encode(stream[i].msg)))
  }

  function Context(stream: seq<Sent>): ParserState {
    if stream == [] then FRESH
    else Denotes(Context(stream[..|stream| - 1]), stream[|stream| - 1].msg, stream[|stream| - 1].lsn).0
  }

  /** The events a stream of messages denotes. */
  function Meaning(stream: seq<Sent>): seq<ChangeEvent> {
    if stream == [] then []
    else
      var init, last := stream[..|stream| - 1], stream[|stream| - 1];
      var e := Denotes(Context(init), last.msg, last.lsn).1;
      Meaning(init) + (if e.Some? then [e.value] else [])
  }

  /** The parser inverts the encoder over whole streams: the same events, in the same order. */
  lemma {:induction false} StreamInverts(stream: seq<Sent>)
    requires AllWellFormed(stream)
    ensures StateAfter(EncodeAll(stream)) == Context(stream)
    ensures Decoded(EncodeAll(stream)) == Meaning(stream)
  {
    hide Parse, Denotes, Encode, WellFormed;
    if stream == [] {
    } else {
      var init, last := stream[..|stream| - 1], stream[|stream| - 1];
      assert WellFormed(last.msg);
      StreamInverts(init);
      assert EncodeAll(stream)[..|stream| - 1] == EncodeAll(init);
      ParseInverts(Context(init), last.msg, last.lsn);
    }
  }

  /** No message of an encoded stream ends in an exception, caught or not. */
  lemma {:induction false} EncodedIsClean(stream: seq<Sent>)
    requires AllWellFormed(stream) && stream != []
    ensures LastReply(EncodeAll(stream)).Got? || LastReply(EncodeAll(stream)).Nothing?
  {
    hide Parse, Denotes, Encode, WellFormed;
    var init, last := stream[..|stream| - 1], stream[|stream| - 1];
    assert WellFormed(last.msg);
    StreamInverts(init);
    assert EncodeAll(stream)[..|stream| - 1] == EncodeAll(init);
    ParseInverts(Context(init), last.msg, last.lsn);
  }

  // ---- Arbitrary bytes --------------------------------------------------------------------------------

  predicate HasTag(m: Message, c: char) { m.payload != [] && m.payload[0] as char == c }

  /** The relation that a message defines, when it is a Relation message that parses to the end. */
  function Defines(m: Message): Option<Relation> {
    if HasTag(m, 'R') && ReadRelation(m.payload[1..]).Ok? then Some(ReadRelation(m.payload[1..]).value) else None
  }

  /** The latest definition of relation `oid` in a session. */
  function LatestRelation(session: seq<Message>, oid: nat): Option<Relation> {
    if session == [] then None
    else
      var d := Defines(session[|session| - 1]);
      if d.Some? && d.value.oid == oid then d else LatestRelation(session[..|session| - 1], oid)
  }

  /** The commit LSN of the latest Begin long enough to hold one; 0 before any. */
  function LatestCommitLsn(session: seq<Message>): nat {
    if session == [] then 0
    else
      var m := session[|session| - 1];
      if HasTag(m, 'B') && |m.payload| >= 9 then U64(m.payload, 1) else LatestCommitLsn(session[..|session| - 1])
  }

  predicate HasTimestamp(m: Message) {
    HasTag(m, 'B') && |m.payload| >= 17 && MIN_TS_US <= I64(m.payload, 9) < MAX_TS_US
  }

  /** The timestamp of the latest Begin that holds one in range; the Unix epoch before any. */
  function LatestTs(session: seq<Message>): int {
    if session == [] then 0
    else
      var m := session[|session| - 1];
      if HasTimestamp(m) then I64(m.payload, 9) + PG_EPOCH_US else LatestTs(session[..|session| - 1])
  }

  lemma U64Tail(data: Bytes, o: nat)
    requires o + 9 <= |data|
    ensures U64(data[1..], o) == U64(data, o + 1) && I64(data[1..], o) == I64(data, o + 1)
  {
    assert forall j :: 0 <= j < |data| - 1 ==> data[1..][j] == data[j + 1];
  }

  /** One message, any bytes: what it can change and what it cannot. */
  lemma ParseChanges(s: ParserState, m: Message)
    ensures var s' := Parse(s, m.payload, m.lsn).state;
            && s'.relations == (if Defines(m).Some? then s.relations[Defines(m).value.oid := Defines(m).value]
                                else s.relations)
            && s'.commitLsn == (if HasTag(m, 'B') && |m.payload| >= 9 then U64(m.payload, 1) else s.commitLsn)
            && s'.tsUs == (if HasTimestamp(m) then I64(m.payload, 9) + PG_EPOCH_US else s.tsUs)
  {
    hide ReadRelation, U64, I64, HandleInsert, HandleUpdate, HandleDelete;
    if HasTag(m, 'B') {
      if |m.payload| >= 9 { U64Tail(m.payload, 0); }
      if |m.payload| >= 17 { U64Tail(m.payload, 8); }
    }
  }

  /** The parser's state is exactly the latest of each kind of message, on any byte streams. */
  lemma {:induction false} StateIsLatest(session: seq<Message>, oid: nat)
    ensures LatestRelation(session, oid)
         == if oid in StateAfter(session).relations then Some(StateAfter(session).relations[oid]) else None
    ensures StateAfter(session).commitLsn == LatestCommitLsn(session)
    ensures StateAfter(session).tsUs == LatestTs(session)
  {
    hide Parse, Defines, HasTag, HasTimestamp, U64, I64;
    if session == [] {
    } else {
      var init, m := session[..|session| - 1], session[|session| - 1];
      StateIsLatest(init, oid);
      ParseChanges(StateAfter(init), m);
    }
  }

  /** The relation a change message names. */
  function NamedOid(m: Message): nat
    requires |m.payload| >= 5
  {
    U32(m.payload[1..], 0)
  }

  /** `row` is the tuple at `o`, read with these columns; without a tuple there is no row. */
  predicate IsTuple(body: Bytes, o: nat, columns: seq<Column>, present: bool, row: Option<Dict>) {
    if present then ReadTuple(body, o, columns).Ok? && row == Some(ReadTuple(body, o, columns).value) else row == None
  }

  /** Where the new tuple's kind byte is: after the OID, or after the old tuple. */
  function NewKindAt(body: Bytes, columns: seq<Column>): nat {
    if |body| >= 5 && IsOldKind(body[4]) && ReadTuple(body, 5, columns).Ok? then ReadTuple(body, 5, columns).next else 4
  }

  /** The event's operation and rows are exactly what the body of the message holds under these columns. */
  predicate HoldsRows(m: Message, columns: seq<Column>, e: ChangeEvent)
    requires |m.payload| >= 6
  {
    var body, at := m.payload[1..], NewKindAt(m.payload[1..], columns);
    match e.op
    case Insert =>
      HasTag(m, 'I') && body[4] as char == 'N' && e.before == None && IsTuple(body, 5, columns, true, e.after)
    case Update =>
      && HasTag(m, 'U') && at < |body|
      && IsTuple(body, 5, columns, IsOldKind(body[4]), e.before)
      && IsTuple(body, at + 1, columns, body[at] as char == 'N', e.after)
    case Delete =>
      HasTag(m, 'D') && IsTuple(body, 5, columns, IsOldKind(body[4]), e.before) && e.after == None
  }

  /** An event comes only from a change message and reports the message's rows and the parser's context. */
  lemma EventReportsState(s: ParserState, m: Message)
    requires Parse(s, m.payload, m.lsn).reply.Got?
    ensures |m.payload| >= 6 && NamedOid(m) in s.relations
    ensures var e, r := Parse(s, m.payload, m.lsn).reply.event, s.relations[NamedOid(m)];
            && e.schema == r.namespace && e.table == r.table
            && e.lsn == m.lsn && e.tsUs == s.tsUs && e.commitLsn == s.commitLsn
            && HoldsRows(m, r.columns, e)
    ensures Parse(s, m.payload, m.lsn).state == s
  {
    hide ReadTuple, ReadRelation, U64, I64, IsOldKind;
  }

  /**
   On any byte stream an event carries the name of the most recent definition of its relation, the
   message's rows read with the columns of that definition, and the commit LSN and timestamp of the
   latest Begin whose bytes held them.
   */
  lemma EventCarriesLatest(session: seq<Message>)
    requires session != [] && LastReply(session).Got?
    ensures var e, m, before := LastReply(session).event, session[|session| - 1], session[..|session| - 1];
            && |m.payload| >= 6
            && var r := LatestRelation(before, NamedOid(m));
               && r.Some? && e.schema == r.value.namespace && e.table == r.value.table
               && HoldsRows(m, r.value.columns, e)
               && e.lsn == m.lsn && e.commitLsn == LatestCommitLsn(before) && e.tsUs == LatestTs(before)
  {
    hide Parse, NamedOid, LatestRelation, LatestCommitLsn, LatestTs, HoldsRows;
    var before, m := session[..|session| - 1], session[|session| - 1];
    EventReportsState(StateAfter(before), m);
    StateIsLatest(before, NamedOid(m));
  }

  /** The only exception that leaves `parse` is a Begin whose timestamp Python cannot represent. */
  lemma UncaughtIsBadTimestamp(s: ParserState, m: Message)
    ensures Parse(s, m.payload, m.lsn).reply.Uncaught?
        <==> HasTag(m, 'B') && |m.payload| >= 17 && !(MIN_TS_US <= I64(m.payload, 9) < MAX_TS_US)
  {
    hide ReadTuple, ReadRelation, U64, I64, IsOldKind;
    if HasTag(m, 'B') && |m.payload| >= 17 {
      U64Tail(m.payload, 8);
    }
  }
}
