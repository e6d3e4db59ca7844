/**
 The state of the buffered sink: what publishing and flushing may do to it, the watermark and the
 sleeps of one flush. The class itself is in `Warehousing`.
 */
module Sink {
  import opened Values
  import opened Tables
  import opened Statements
  import opened Events
  import opened Batches
  import opened Replay
  import opened Attempts
  import opened Cycles
  import opened HistoryTables

  // ---- Abstract state --------------------------------------------------------------------------

  /**
   `pending` are the stopped attempts on the buffer so far, `cycles` the confirmed batches, and
   `strikes` counts the publishes that raised since the last confirmed batch.
   */
  datatype SinkState = SinkState(buffer: seq<ChangeEvent>, pending: seq<Attempt>, cycles: seq<Cycle>, strikes: nat)

  const NEW_SINK := SinkState([], [], [], 0)

  datatype Config = Config(schema: Schema, batchSize: int, flushInterval: real, maxRetries: int, retryBase: real) {
    /** The hypotheses on the environment variables that the code does not check. */
    ghost predicate Ok() { schema.Valid() && batchSize >= 1 && maxRetries >= 1 && retryBase >= 0.0 }
  }

  ghost predicate SinkOk(cfg: Config, s: SinkState) {
    && AllMapped(cfg.schema, s.buffer)
    && ValidAttempts(cfg.schema, s.buffer, s.pending)
    && ValidCycles(cfg.schema, s.cycles)
    && |s.buffer| <= cfg.batchSize - 1 + s.strikes
    && (s.buffer == [] ==> s.pending == [])
  }

  function StateOps(s: SinkState): seq<Done> { CyclesOps(s.cycles) + OpsOf(s.pending) }

  /** Everything ever accepted by the sink: what is confirmed, then what is buffered. */
  function Accepted(s: SinkState): seq<ChangeEvent> { LogOf(s.cycles) + s.buffer }

  lemma SinkLegal(cfg: Config, s: SinkState)
    requires SinkOk(cfg, s)
    ensures AllLegal(StateOps(s))
  {
    CyclesLegal(cfg.schema, s.cycles);
    AttemptsLegal(cfg.schema, s.buffer, s.pending);
  }

  /** Whatever the sink has done consists of statements of batch programs. */
  lemma SinkFromPrograms(cfg: Config, s: SinkState)
    requires cfg.Ok() && SinkOk(cfg, s)
    ensures FromPrograms(cfg.schema, StateOps(s))
  {
    hide Schema.Valid, ValidAttempts, ValidCycles, FromPrograms;
    CyclesFromPrograms(cfg.schema, s.cycles);
    AttemptsFromPrograms(cfg.schema, s.buffer, s.pending);
    FromProgramsConcat(cfg.schema, CyclesOps(s.cycles), OpsOf(s.pending));
  }

  /** Whatever the sink has done, and in the middle of any retry, a key-unique table is key-unique. */
  lemma {:induction false} SinkKeepsKeysUnique(cfg: Config, s: SinkState, base: Db, table: string)
    requires cfg.Ok() && SinkOk(cfg, s) && table in cfg.schema.tables
    requires PkUnique(cfg.schema.tables[table].pk, At(base, cfg.schema.tables[table].current))
    ensures AllLegal(StateOps(s))
    ensures PkUnique(cfg.schema.tables[table].pk, At(Run(base, StateOps(s)), cfg.schema.tables[table].current))
  {
    hide Schema.Valid, ValidAttempts, ValidCycles, PkUnique, FromPrograms, Run, StateOps;
    SinkLegal(cfg, s);
    SinkFromPrograms(cfg, s);
    KeysStayUnique(cfg.schema, base, StateOps(s), table);
  }

  /** The rows of one current table that all batches, confirmed and buffered, agree on. */
  ghost predicate AcceptedTidy(cfg: Config, s: SinkState, cols: set<string>, table: string)
    requires table in cfg.schema.tables
  {
    && AllFaithful(cfg.schema, s.cycles, table)
    && Tidy(cfg.schema.tables[table].pk, cols, TableEvents(cfg.schema, LogOf(s.cycles), table))
    && Tidy(cfg.schema.tables[table].pk, cols, TableEvents(cfg.schema, s.buffer, table))
  }

  /**
   The table in any state of the sink, in the middle of a write or of a retry too: under each key
   it is the replay of the confirmed log, except for what the stopped attempts on the buffer may
   have made of the keys that the buffer touches.
   */
  lemma {:induction false} SinkDrifts(cfg: Config, s: SinkState, cols: set<string>, table: string, t: Table, k: Key)
    requires cfg.Ok() && SinkOk(cfg, s) && table in cfg.schema.tables && AcceptedTidy(cfg, s, cols, table)
    ensures AllLegal(OpsOn(StateOps(s), cfg.schema.tables[table].current))
    ensures var pk, name := cfg.schema.tables[table].pk, cfg.schema.tables[table].current;
            Drifted(pk, TableEvents(cfg.schema, s.buffer, table), k,
                    Slice(pk, ReplayTable(pk, t, TableEvents(cfg.schema, LogOf(s.cycles), table)), k),
                    Slice(pk, RunTable(t, OpsOn(StateOps(s), name)), k))
  {
    var sc, conf := cfg.schema, cfg.schema.tables[table];
    hide Schema.Valid, ValidAttempts, ValidCycles, AllFaithful, Tidy, TableEvents, RunTable, ReplayTable, Slice,
      Drifted,
      AllLegal, OpsOn, AllMapped, Alike;
    SinkLegal(cfg, s);
    LegalOn(StateOps(s), conf.current);
    CyclesLegal(sc, s.cycles);
    LegalOn(CyclesOps(s.cycles), conf.current);
    RunIsReplay(sc, cols, s.cycles, table, t);
    var u := AfterCycles(t, s.cycles, conf.current);
    AttemptsStayDrifted(sc, cols, s.buffer, s.pending, table, u, k);
    OpsOnConcat(CyclesOps(s.cycles), OpsOf(s.pending), conf.current);
    RunTableConcat(t, OpsOn(CyclesOps(s.cycles), conf.current), OpsOn(OpsOf(s.pending), conf.current));
    SliceOfAlike(conf.pk, u, ReplayTable(conf.pk, t, TableEvents(sc, LogOf(s.cycles), table)), k);
  }

  /** And its history table: what the confirmed batches wrote, and what the stopped attempts left behind. */
  lemma {:induction false} SinkHistory(cfg: Config, s: SinkState, table: string, t: Table, r: Row)
    requires cfg.Ok() && SinkOk(cfg, s) && table in cfg.schema.tables
    ensures AllLegal(OpsOn(StateOps(s), cfg.schema.tables[table].history))
    ensures r in RunTable(t, OpsOn(StateOps(s), cfg.schema.tables[table].history))
       <==> r in t
            || r in LogRows(cfg.schema, s.cycles, table)
            || r in LeftBehind(cfg.schema, s.buffer, s.pending, table)
  {
    var sc, name := cfg.schema, cfg.schema.tables[table].history;
    hide Schema.Valid, ValidAttempts, ValidCycles, RunTable, AllLegal, OpsOn, AllMapped, LogRows, LeftBehind;
    SinkLegal(cfg, s);
    LegalOn(StateOps(s), name);
    CyclesLegal(sc, s.cycles);
    LegalOn(CyclesOps(s.cycles), name);
    HistoryHasLog(sc, s.cycles, table, t, r);
    AttemptsHistory(sc, s.buffer, s.pending, table, AfterCycles(t, s.cycles, name));
    OpsOnConcat(CyclesOps(s.cycles), OpsOf(s.pending), name);
    RunTableConcat(t, OpsOn(CyclesOps(s.cycles), name), OpsOn(OpsOf(s.pending), name));
  }

  // ---- Watermark ----------------------------------------------------------------------------------

  function EventLsn(e: ChangeEvent): nat { if e.commitLsn != 0 then e.commitLsn else e.lsn }

  /** The highest commit LSN of a batch: what a successful flush returns. */
  function Watermark(batch: seq<ChangeEvent>): nat
    requires batch != []
  {
    var last := EventLsn(batch[|batch| - 1]);
    if |batch| == 1 then last
    else
      var rest := Watermark(batch[..|batch| - 1]);
      if rest >= last then rest else last
  }

  lemma WatermarkNext(batch: seq<ChangeEvent>)
    requires batch != []
    ensures var last := EventLsn(batch[|batch| - 1]);
            if |batch| == 1 then Watermark(batch) == last
            else var rest := Watermark(batch[..|batch| - 1]);
                 Watermark(batch) == if rest >= last then rest else last
  {
  }

  lemma {:induction false} WatermarkIsMax(batch: seq<ChangeEvent>)
    requires batch != []
    ensures forall e :: e in batch ==> EventLsn(e) <= Watermark(batch)
    ensures exists e :: e in batch && EventLsn(e) == Watermark(batch)
  {
    hide Watermark, EventLsn;
    var init, last := batch[..|batch| - 1], batch[|batch| - 1];
    WatermarkNext(batch);
    assert batch == init + [last] && last in batch;
    if |batch| == 1 {
      assert EventLsn(last) == Watermark(batch);
    } else {
      WatermarkIsMax(init);
      var e :| e in init && EventLsn(e) == Watermark(init);
      assert e in batch;
    }
  }

  // ---- Back-off between attempts -----------------------------------------------------------------

  const MAX_WAIT := 60.0

  /** `base * 2 ** n` */
  function Doubled(base: real, n: nat): real {
    if n == 0 then base else 2.0 * Doubled(base, n - 1)
  }

  function Min(a: real, b: real): real { if a <= b then a else b }

  /** The sleep after failed attempt `n`, counted from 1. */
  function Wait(base: real, n: nat): real
    requires n >= 1
  {
    Min(Doubled(base, n - 1), MAX_WAIT)
  }

  /** The sleeps after attempts 1 to `n`. */
  function Slept(base: real, n: nat): real {
    if n == 0 then 0.0 else Slept(base, n - 1) + Wait(base, n)
  }

  /** `next` is twice `prev`, up to the cap. */
  predicate Doubles(prev: real, next: real, cap: real) {
    next == if prev == cap || 2.0 * prev >= cap then cap else 2.0 * prev
  }

  /** The first sleep is the base, each later one twice as long, and none is longer than a minute. */
  ghost predicate Paced(sleeps: seq<real>, base: real) {
    && (sleeps != [] ==> sleeps[0] == if base <= 60.0 then base else 60.0)
    && forall i :: 0 < i < |sleeps| ==> Doubles(sleeps[i - 1], sleeps[i], 60.0)
  }

  function Total(sleeps: seq<real>): real {
    if sleeps == [] then 0.0 else Total(sleeps[..|sleeps| - 1]) + sleeps[|sleeps| - 1]
  }

  /** The sleeps after attempts 1 to `n`, one by one. */
  function Waits(base: real, n: nat): seq<real> {
    if n == 0 then [] else Waits(base, n - 1) + [Wait(base, n)]
  }

  lemma WaitDoubles(base: real, n: nat)
    requires base >= 0.0 && n >= 1
    ensures Wait(base, 1) == if base <= 60.0 then base else 60.0
    ensures Doubles(Wait(base, n), Wait(base, n + 1), 60.0)
  {
    DoubledPositive(base, n - 1);
    assert Doubled(base, n) == 2.0 * Doubled(base, n - 1);
  }

  lemma {:induction false} WaitsAre(base: real, n: nat)
    ensures |Waits(base, n)| == n && Total(Waits(base, n)) == Slept(base, n)
    ensures forall i :: 0 <= i < n ==> Waits(base, n)[i] == Wait(base, i + 1)
  {
    hide Wait;
    if n > 0 {
      WaitsAre(base, n - 1);
      assert Waits(base, n)[..n - 1] == Waits(base, n - 1);
    }
  }

  lemma WaitsArePaced(base: real, n: nat)
    requires base >= 0.0
    ensures |Waits(base, n)| == n && Paced(Waits(base, n), base) && Total(Waits(base, n)) == Slept(base, n)
  {
    hide Wait, Doubles, Waits, Total, Slept;
    WaitsAre(base, n);
    WaitDoubles(base, 1);
    var sleeps := Waits(base, n);
    forall i | 0 < i < n ensures Doubles(sleeps[i - 1], sleeps[i], 60.0) {
      WaitDoubles(base, i);
    }
  }

  /** At most `base * (2 ** n - 1)`, and at most a minute each. */
  lemma {:induction false} SleptIsBounded(base: real, n: nat)
    ensures Slept(base, n) <= Doubled(base, n) - base
    ensures Slept(base, n) <= MAX_WAIT * (n as real)
  {
    if n == 0 {
    } else {
      SleptIsBounded(base, n - 1);
    }
  }

  /** All sleeps of one flush that tries `retries` times. */
  lemma FlushSleeps(base: real, retries: nat)
    requires retries >= 1
    ensures Slept(base, retries - 1) <= Min(Doubled(base, retries - 1) - base, MAX_WAIT * ((retries - 1) as real))
  {
    SleptIsBounded(base, retries - 1);
  }

  lemma {:induction false} SleptGrows(base: real, m: nat, n: nat)
    requires base >= 0.0 && m <= n
    ensures 0.0 <= Slept(base, m) <= Slept(base, n)
  {
    if n == 0 {
    } else {
      DoubledPositive(base, n - 1);
      SleptGrows(base, if m < n then m else n - 1, n - 1);
    }
  }

  lemma {:induction false} DoubledPositive(base: real, n: nat)
    requires base >= 0.0
    ensures Doubled(base, n) >= 0.0
  {
    if n == 0 {
    } else {
      DoubledPositive(base, n - 1);
    }
  }

  // ---- Steps ------------------------------------------------------------------------------------------

  /** A flush that confirmed the buffer, or found it empty. */
  ghost predicate Flushed(cfg: Config, s: SinkState, s': SinkState) {
    if s.buffer == [] then s' == s
    else
      && s'.buffer == [] && s'.pending == [] && s'.strikes == 0
      && |s'.cycles| == |s.cycles| + 1 && s.cycles <= s'.cycles
      && var c := s'.cycles[|s.cycles|];
         c.batch == s.buffer && s.pending <= c.failed && ValidCycle(cfg.schema, c)
  }

  /** A flush that used up its retries and raised. */
  ghost predicate GaveUp(cfg: Config, s: SinkState, s': SinkState) {
    && s.buffer != [] && s'.buffer == s.buffer && s'.cycles == s.cycles && s'.strikes == s.strikes
    && s.pending <= s'.pending && |s'.pending| == |s.pending| + cfg.maxRetries
    && AllMapped(cfg.schema, s.buffer) && ValidAttempts(cfg.schema, s.buffer, s'.pending)
  }

  function Normalized(cfg: Config, e: ChangeEvent): ChangeEvent {
    e.(table := cfg.schema.Normalize(e.table))
  }

  predicate IsMapped(cfg: Config, e: ChangeEvent) { cfg.schema.Normalize(e.table) in cfg.schema.tables }

  function Appended(cfg: Config, s: SinkState, e: ChangeEvent): SinkState {
    s.(buffer := s.buffer + [Normalized(cfg, e)])
  }

  ghost predicate Published(cfg: Config, s: SinkState, e: ChangeEvent, s': SinkState) {
    if !IsMapped(cfg, e) then s' == s
    else
      || (s' == Appended(cfg, s, e) && |s'.buffer| < cfg.batchSize)
      || Flushed(cfg, Appended(cfg, s, e), s')
  }

  ghost predicate PublishRaised(cfg: Config, s: SinkState, e: ChangeEvent, s': SinkState) {
    && IsMapped(cfg, e)
    && s'.strikes == s.strikes + 1
    && GaveUp(cfg, Appended(cfg, s, e), s'.(strikes := s.strikes))
  }

  /** `n` attempts on a batch that each wrote it completely and then were told that it had failed. */
  function Unlucky(batch: seq<ChangeEvent>, final: seq<Done>, n: nat): seq<Attempt> {
    seq(n, _ => Attempt(|batch|, final))
  }

  /** A flush that gives up may have written everything: nothing is confirmed, and all statements took effect. */
  lemma GivingUpCanHaveWritten(cfg: Config, s: SinkState, final: seq<Done>)
    requires cfg.Ok() && SinkOk(cfg, s) && s.buffer != [] && Resolves(final, Program(cfg.schema, s.buffer))
    ensures GaveUp(cfg, s, s.(pending := s.pending + Unlucky(s.buffer, final, cfg.maxRetries)))
  {
    hide Program, Resolves, Schema.Valid;
    FinalIsAttempt(cfg.schema, s.buffer, final);
    var more := s.pending + Unlucky(s.buffer, final, cfg.maxRetries);
    hide ValidAttempt;
    forall i | 0 <= i < |more| ensures ValidAttempt(cfg.schema, s.buffer, more[i]) {
    }
  }

  lemma {:induction false} FlushedKeepsOk(cfg: Config, s: SinkState, s': SinkState)
    requires cfg.Ok() && SinkOk(cfg, s) && Flushed(cfg, s, s')
    ensures SinkOk(cfg, s') && Accepted(s') == Accepted(s)
  {
    hide ValidCycle, ValidAttempt, Schema.Valid, Schema.Normalize;
    if s.buffer != [] {
      var c := s'.cycles[|s.cycles|];
      assert s'.cycles == s.cycles + [c];
      assert s'.cycles[..|s'.cycles| - 1] == s.cycles;
    }
  }

  lemma GaveUpKeepsOk(cfg: Config, s: SinkState, s': SinkState)
    requires SinkOk(cfg, s) && GaveUp(cfg, s, s')
    ensures SinkOk(cfg, s') && Accepted(s') == Accepted(s)
  {
  }

  /** Attempts on a first part of the buffer stay attempts when the buffer grows. */
  lemma {:induction false} AttemptsSurviveGrowth(sc: Schema, batch: seq<ChangeEvent>, e: ChangeEvent,
                                                 attempts: seq<Attempt>)
    requires AllMapped(sc, batch + [e]) && AllMapped(sc, batch) && ValidAttempts(sc, batch, attempts)
    ensures ValidAttempts(sc, batch + [e], attempts)
  {
    hide Program, Part;
    forall i | 0 <= i < |attempts| ensures ValidAttempt(sc, batch + [e], attempts[i]) {
      assert ValidAttempt(sc, batch, attempts[i]);
      assert (batch + [e])[..attempts[i].size] == batch[..attempts[i].size];
    }
  }

  lemma AppendedIsMapped(cfg: Config, s: SinkState, e: ChangeEvent)
    requires cfg.Ok() && AllMapped(cfg.schema, s.buffer) && IsMapped(cfg, e)
    ensures AllMapped(cfg.schema, Appended(cfg, s, e).buffer)
    ensures cfg.schema.Normalize(Normalized(cfg, e).table) == cfg.schema.Normalize(e.table)
  {
    hide Schema.Normalize;
  }

  lemma AppendKeepsAttempts(cfg: Config, s: SinkState, e: ChangeEvent)
    requires cfg.Ok() && SinkOk(cfg, s) && IsMapped(cfg, e)
    ensures AllMapped(cfg.schema, Appended(cfg, s, e).buffer)
    ensures ValidAttempts(cfg.schema, Appended(cfg, s, e).buffer, s.pending)
    ensures Accepted(Appended(cfg, s, e)) == Accepted(s) + [Normalized(cfg, e)]
    ensures |Appended(cfg, s, e).buffer| == |s.buffer| + 1
  {
    AppendedIsMapped(cfg, s, e);
    AttemptsSurviveGrowth(cfg.schema, s.buffer, Normalized(cfg, e), s.pending);
  }

  /** What publishing adds to what the sink has accepted. */
  function Taken(cfg: Config, e: ChangeEvent): seq<ChangeEvent> {
    if IsMapped(cfg, e) then [Normalized(cfg, e)] else []
  }

  lemma {:induction false} PublishedKeepsOk(cfg: Config, s: SinkState, e: ChangeEvent, s': SinkState)
    requires cfg.Ok() && SinkOk(cfg, s) && Published(cfg, s, e, s')
    ensures SinkOk(cfg, s') && Accepted(s') == Accepted(s) + Taken(cfg, e)
  {
    hide Schema.Valid, ValidAttempts, ValidCycles, Config.Ok, IsMapped, Normalized, Accepted;
    if IsMapped(cfg, e) {
      AppendKeepsAttempts(cfg, s, e);
      var a := Appended(cfg, s, e);
      if !(s' == a && |s'.buffer| < cfg.batchSize) {
        var roomy := a.(strikes := s.strikes + 1);
        FlushedIgnoresStrikes(cfg, a, s', s.strikes + 1);
        FlushedKeepsOk(cfg, roomy, s');
        AcceptedIgnoresStrikes(a, s.strikes + 1);
      }
    } else {
      AcceptedNothing(s);
    }
  }

  lemma FlushedIgnoresStrikes(cfg: Config, s: SinkState, s': SinkState, n: nat)
    requires s.buffer != [] && Flushed(cfg, s, s')
    ensures Flushed(cfg, s.(strikes := n), s')
  {
  }

  lemma AcceptedIgnoresStrikes(s: SinkState, n: nat)
    ensures Accepted(s.(strikes := n)) == Accepted(s)
  {
  }

  lemma AcceptedNothing(s: SinkState)
    ensures Accepted(s) + [] == Accepted(s)
  {
  }

  lemma PublishRaisedKeepsOk(cfg: Config, s: SinkState, e: ChangeEvent, s': SinkState)
    requires cfg.Ok() && SinkOk(cfg, s) && PublishRaised(cfg, s, e, s')
    ensures SinkOk(cfg, s') && Accepted(s') == Accepted(s) + Taken(cfg, e)
  {
    hide Schema.Valid, ValidAttempts, ValidCycles, Config.Ok, Normalized, LogOf;
    AppendKeepsAttempts(cfg, s, e);
  }

  /** An event of a partition is accepted as one of its parent: that of the first prefix that fits. */
  lemma {:induction false} PartitionIsAccepted(cfg: Config, s: SinkState, e: ChangeEvent, i: nat, s': SinkState)
    requires cfg.Ok() && SinkOk(cfg, s)
    requires i < |cfg.schema.prefixes| && cfg.schema.prefixes[i].0 <= e.table
    requires forall j :: 0 <= j < i ==> !(cfg.schema.prefixes[j].0 <= e.table)
    requires cfg.schema.prefixes[i].1 in cfg.schema.tables
    requires Published(cfg, s, e, s') || PublishRaised(cfg, s, e, s')
    ensures Accepted(s') == Accepted(s) + [e.(table := cfg.schema.prefixes[i].1)]
    ensures s'.cycles == s.cycles ==> s'.buffer == s.buffer + [e.(table := cfg.schema.prefixes[i].1)]
  {
    FirstPrefixDecides(cfg.schema, e.table, i);
    TakenIs(cfg, e, cfg.schema.prefixes[i].1);
    AcceptedIs(cfg, s, e, s', cfg.schema.prefixes[i].1);
  }

  /** An event whose name fits no prefix keeps it, and is skipped if that is no replicated table. */
  lemma {:induction false} OtherNamesStay(cfg: Config, s: SinkState, e: ChangeEvent, s': SinkState)
    requires cfg.Ok() && SinkOk(cfg, s)
    requires forall j :: 0 <= j < |cfg.schema.prefixes| ==> !(cfg.schema.prefixes[j].0 <= e.table)
    requires Published(cfg, s, e, s') || PublishRaised(cfg, s, e, s')
    ensures e.table in cfg.schema.tables ==> Accepted(s') == Accepted(s) + [e]
    ensures e.table !in cfg.schema.tables ==> s' == s
  {
    FirstPrefixDecides(cfg.schema, e.table, |cfg.schema.prefixes|);
    TakenIs(cfg, e, e.table);
    if e.table in cfg.schema.tables {
      AcceptedIs(cfg, s, e, s', e.table);
      assert e.(table := e.table) == e;
    }
  }

  lemma TakenIs(cfg: Config, e: ChangeEvent, parent: string)
    requires cfg.schema.Normalize(e.table) == parent
    ensures Normalized(cfg, e) == e.(table := parent) && (IsMapped(cfg, e) <==> parent in cfg.schema.tables)
    ensures parent in cfg.schema.tables ==> Taken(cfg, e) == [e.(table := parent)]
  {
  }

  lemma AcceptedIs(cfg: Config, s: SinkState, e: ChangeEvent, s': SinkState, parent: string)
    requires cfg.Ok() && SinkOk(cfg, s) && IsMapped(cfg, e) && Normalized(cfg, e) == e.(table := parent)
    requires Taken(cfg, e) == [e.(table := parent)]
    requires Published(cfg, s, e, s') || PublishRaised(cfg, s, e, s')
    ensures Accepted(s') == Accepted(s) + [e.(table := parent)]
    ensures s'.cycles == s.cycles ==> s'.buffer == s.buffer + [e.(table := parent)]
  {
    hide Config.Ok, SinkOk, Accepted, IsMapped, Normalized, Taken, ValidCycle, ValidAttempts, AllMapped;
    if Published(cfg, s, e, s') {
      PublishedKeepsOk(cfg, s, e, s');
    } else {
      PublishRaisedKeepsOk(cfg, s, e, s');
    }
  }
}
