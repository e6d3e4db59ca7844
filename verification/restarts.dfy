/**
 Crashes and restarts. A process can die in any reachable state, in the middle of a write too. The
 next one starts with an empty sink and a new parser, over the warehouse as it was left; the slot
 does not hand out again what the dead process had consumed.
 */
module Restarts {
  import opened Values
  import opened Events
  import opened Stream
  import opened Tables
  import opened Statements
  import opened Batches
  import opened Replay
  import opened Attempts
  import opened Cycles
  import opened HistoryTables
  import opened Sink
  import opened Pipeline
  import opened Runs

  /** The lives of the service: each is a run, and ends where it crashed or stopped. */
  ghost predicate Lives(st: Settings, lives: seq<seq<World>>) {
    forall j :: 0 <= j < |lives| ==> IsRun(st, lives[j])
  }

  function EndOf(run: seq<World>): World { if run == [] then START else run[|run| - 1] }

  /** All statements that have taken effect, over all lives. */
  function LivesOps(lives: seq<seq<World>>): seq<Done> {
    if lives == [] then [] else LivesOps(lives[..|lives| - 1]) + StateOps(EndOf(lives[|lives| - 1]).sink)
  }

  /** The confirmed batches of all lives: what a restart can count on. */
  function Durable(lives: seq<seq<World>>): seq<ChangeEvent> {
    if lives == [] then [] else Durable(lives[..|lives| - 1]) + LogOf(EndOf(lives[|lives| - 1]).sink.cycles)
  }

  /** What one life took from the slot, session by session. */
  ghost predicate LifeCarries(run: seq<World>, streams: seq<seq<Sent>>) { Carries(EndOf(run).sessions, streams) }

  /**
   How the messages that one life consumed are split when it ends. The events of those it decoded
   are its confirmed batches and then its buffer; those it did not decode are exactly the left-over
   tails of its sessions. The next life has neither the buffer nor the tails. What of the buffer is in
   the tables all the same, `RestartsMayHold` says.
   */
  lemma CrashSplitsLog(st: Settings, run: seq<World>, streams: seq<seq<Sent>>)
    requires st.Ok() && IsRun(st, run) && LifeCarries(run, streams)
    ensures Durable([run]) + EndOf(run).sink.buffer == MeaningLog(st.sink, Kept(EndOf(run).sessions, streams))
    ensures forall s :: 0 <= s < |streams| ==>
              var kept := KeptOf(EndOf(run).sessions[s], streams[s]);
              kept <= streams[s] && AllWellFormed(streams[s][|kept|..])
              && LeftOver(EndOf(run).sessions[s]) == EncodeAll(streams[s][|kept|..])
  {
    assert run != [] && EndOf(run) == run[|run| - 1];
    assert [run][..0] == [] && Durable([run]) == LogOf(EndOf(run).sink.cycles);
    hide *;
    WhatWasDecoded(st, run, |run| - 1, streams);
    NothingLostOrDoubled(st, run, |run| - 1);
    DecodedIsMeant(st.sink, EndOf(run).sessions, Kept(EndOf(run).sessions, streams));
  }

  /**
   A restart re-delivers nothing: any poll can be consumed, and the process die before it decoded
   a message; then the durable log is empty and the whole poll is gone.
   */
  lemma CrashCanDropMessages(st: Settings, taken: seq<Message>) returns (run: seq<World>)
    requires st.Ok() && taken != []
    ensures IsRun(st, run) && Durable([run]) == []
    ensures |EndOf(run).sessions| == 1 && LeftOver(EndOf(run).sessions[0]) == taken
  {
    hide Config.Ok;
    var before := Poll(taken, 0, Running);
    var w1 := START.(phase := Polling, sessions := [[]]);
    var w2 := w1.(phase := Draining, sessions := [[before]]);
    run := [START, w1, w2];
    assert Connects(START, w1) by { assert START.sessions + [[]] == [[]]; }
    assert Polls(w1, w2, taken) by { FirstPollOpens(w1, w2, before); }
    assert LeftOver([before]) == taken;
    assert [run][..0] == [] && Durable([run]) == LogOf(w2.sink.cycles) == [];
  }

  /**
   Nor is the buffer always absent: any life that is between polls with a full or partial buffer can
   go on to give up its flush with every statement of the batch in effect, and die there.
   */
  lemma CrashCanKeepBuffer(st: Settings, run: seq<World>, final: seq<Done>) returns (longer: seq<World>)
    requires st.Ok() && IsRun(st, run) && EndOf(run).phase.Polling? && !EndOf(run).shutdown
    requires EndOf(run).sink.buffer != [] && AllMapped(st.sink.schema, EndOf(run).sink.buffer)
    requires Resolves(final, Program(st.sink.schema, EndOf(run).sink.buffer))
    ensures IsRun(st, longer) && Durable([longer]) == Durable([run])
    ensures var s, s' := EndOf(run).sink, EndOf(longer).sink;
            s'.buffer == s.buffer && s'.pending == s.pending + Unlucky(s.buffer, final, st.sink.maxRetries)
  {
    var w := EndOf(run);
    assert run != [] && w == run[|run| - 1];
    hide InStep, ExitsOk, DelaysOk, DecodedLog, Schema.Valid, ValidAttempts, ValidCycles, Program, Resolves, Backoff,
      GaveUp,
      Unlucky;
    ReachableKeeps(st, run, |run| - 1);
    GivingUpCanHaveWritten(st.sink, w.sink, final);
    var sink := w.sink.(pending := w.sink.pending + Unlucky(w.sink.buffer, final, st.sink.maxRetries));
    var w' := Failed(st, w.(sink := sink));
    assert EmptyPollGivesUp(st, w, w');
    longer := run + [w'];
    forall i | 0 <= i < |longer| - 1 ensures Next(st, longer[i], longer[i + 1]) {
      if i < |run| - 1 {
        assert Next(st, run[i], run[i + 1]);
      }
    }
    assert [longer][..0] == [] && [run][..0] == [];
  }

  lemma {:induction false} LivesFromPrograms(st: Settings, lives: seq<seq<World>>)
    requires st.Ok() && Lives(st, lives)
    ensures AllLegal(LivesOps(lives)) && FromPrograms(st.sink.schema, LivesOps(lives))
  {
    hide FromPrograms, IsRun, StateOps, EndOf, Config.Ok, Legal;
    if lives == [] {
      NothingFromPrograms(st.sink.schema);
    } else {
      var init, run := lives[..|lives| - 1], lives[|lives| - 1];
      LivesFromPrograms(st, init);
      assert IsRun(st, run);
      LifeFromPrograms(st, run);
      FromProgramsConcat(st.sink.schema, LivesOps(init), StateOps(EndOf(run).sink));
    }
  }

  lemma LifeFromPrograms(st: Settings, run: seq<World>)
    requires st.Ok() && IsRun(st, run)
    ensures AllLegal(StateOps(EndOf(run).sink)) && FromPrograms(st.sink.schema, StateOps(EndOf(run).sink))
  {
    assert run != [] && EndOf(run) == run[|run| - 1];
    hide IsRun, InStep, ExitsOk, DelaysOk, DecodedLog, FromPrograms, Schema.Valid, ValidAttempts, ValidCycles, Legal;
    ReachableKeeps(st, run, |run| - 1);
    SinkLegal(st.sink, EndOf(run).sink);
    SinkFromPrograms(st.sink, EndOf(run).sink);
  }

  /**
   One row per primary key survives crashes anywhere, in the middle of a write or of a retry, and
   any number of restarts.
   */
  lemma RestartsKeepKeysUnique(st: Settings, lives: seq<seq<World>>, base: Db, table: string)
    requires st.Ok() && Lives(st, lives) && table in st.sink.schema.tables
    requires PkUnique(st.sink.schema.tables[table].pk, At(base, st.sink.schema.tables[table].current))
    ensures AllLegal(LivesOps(lives))
    ensures PkUnique(st.sink.schema.tables[table].pk,
                     At(Run(base, LivesOps(lives)), st.sink.schema.tables[table].current))
  {
    hide PkUnique, FromPrograms, Run, Lives, Schema.Valid, LivesOps, AllLegal;
    LivesFromPrograms(st, lives);
    KeysStayUnique(st.sink.schema, base, LivesOps(lives), table);
  }

  // ---- The tables after restarts ----------------------------------------------------------------

  /** The events of one table that a life has confirmed, and those it was left with. */
  function Confirmed(sc: Schema, run: seq<World>, table: string): seq<ChangeEvent> {
    TableEvents(sc, LogOf(EndOf(run).sink.cycles), table)
  }

  function Buffered(sc: Schema, run: seq<World>, table: string): seq<ChangeEvent> {
    TableEvents(sc, EndOf(run).sink.buffer, table)
  }

  /** Each life meets the batch condition, and its rows share their columns. */
  ghost predicate LivesTidy(st: Settings, lives: seq<seq<World>>, cols: set<string>, table: string)
    requires table in st.sink.schema.tables
  {
    forall j :: 0 <= j < |lives| ==> AcceptedTidy(st.sink, EndOf(lives[j]).sink, cols, table)
  }

  /** The rows of a key after replaying events on a table that has `rows` under it. */
  function KeyReplay(pk: seq<string>, rows: Table, es: seq<ChangeEvent>, k: Key): Table {
    if Complete(k) then ReplayedAt(pk, rows, es, k) else rows
  }

  /** A table after some lives, as only its own statements see it. */
  function AfterLives(t: Table, lives: seq<seq<World>>, name: string): Table
    requires AllLegal(OpsOn(LivesOps(lives), name))
  {
    RunTable(t, OpsOn(LivesOps(lives), name))
  }

  lemma LivesLegalOn(st: Settings, lives: seq<seq<World>>, name: string)
    requires st.Ok() && Lives(st, lives)
    ensures AllLegal(OpsOn(LivesOps(lives), name))
  {
    hide FromPrograms, Lives, Settings.Ok, LivesOps, Legal;
    LivesFromPrograms(st, lives);
    LegalOn(LivesOps(lives), name);
  }

  /** What one life makes of a table, under one key, wherever it ends. */
  lemma LifeDrifts(st: Settings, run: seq<World>, cols: set<string>, table: string, t: Table, k: Key)
    requires st.Ok() && IsRun(st, run) && table in st.sink.schema.tables
    requires AcceptedTidy(st.sink, EndOf(run).sink, cols, table)
    ensures AllLegal(OpsOn(StateOps(EndOf(run).sink), st.sink.schema.tables[table].current))
    ensures var sc, pk, name := st.sink.schema, st.sink.schema.tables[table].pk, st.sink.schema.tables[table].current;
            Drifted(pk, Buffered(sc, run, table), k, KeyReplay(pk, Slice(pk, t, k), Confirmed(sc, run, table), k),
                    Slice(pk, RunTable(t, OpsOn(StateOps(EndOf(run).sink), name)), k))
  {
    assert run != [] && EndOf(run) == run[|run| - 1];
    var sc, pk := st.sink.schema, st.sink.schema.tables[table].pk;
    assert Tidy(pk, cols, Confirmed(sc, run, table));
    hide IsRun, InStep, ExitsOk, DelaysOk, DecodedLog, SinkOk, Config.Ok, AcceptedTidy, Drifted, Tidy, TableEvents,
      Slice,
      RunTable, ReplayTable, AllLegal, OpsOn, StateOps, EndOf, ReplayedAt;
    ReachableKeeps(st, run, |run| - 1);
    SinkDrifts(st.sink, EndOf(run).sink, cols, table, t, k);
    ReplayAt(pk, cols, t, Confirmed(sc, run, table), k);
  }

  /** One life more. */
  lemma LivesMore(st: Settings, lives: seq<seq<World>>, name: string, t: Table)
    requires st.Ok() && Lives(st, lives) && lives != []
    ensures var init, run := lives[..|lives| - 1], lives[|lives| - 1];
            && Lives(st, init) && IsRun(st, run)
            && AllLegal(OpsOn(LivesOps(lives), name)) && AllLegal(OpsOn(LivesOps(init), name))
            && AllLegal(OpsOn(StateOps(EndOf(run).sink), name))
            && AfterLives(t, lives, name) == RunTable(AfterLives(t, init, name), OpsOn(StateOps(EndOf(run).sink), name))
  {
    hide IsRun, StateOps, EndOf, Settings.Ok, Legal, RunTable, OpsOn, FromPrograms;
    var init, run := lives[..|lives| - 1], lives[|lives| - 1];
    assert IsRun(st, run);
    LivesLegalOn(st, lives, name);
    LivesLegalOn(st, init, name);
    LifeFromPrograms(st, run);
    LegalOn(StateOps(EndOf(run).sink), name);
    OpsOnConcat(LivesOps(init), StateOps(EndOf(run).sink), name);
    RunTableConcat(t, OpsOn(LivesOps(init), name), OpsOn(StateOps(EndOf(run).sink), name));
  }

  /**
   What a key may hold after some lives: each life replays its confirmed events on what the earlier
   ones left, and then its stopped attempts may have made of it what `Attempts.Drifted` says.
   */
  ghost predicate MayHold(sc: Schema, pk: seq<string>, lives: seq<seq<World>>, table: string, k: Key, was: Table,
                          now: Table) {
    if lives == [] then now == was
    else
      var init, run := lives[..|lives| - 1], lives[|lives| - 1];
      exists mid: Table ::
        && MayHold(sc, pk, init, table, k, was, mid)
        && Drifted(pk, Buffered(sc, run, table), k, KeyReplay(pk, mid, Confirmed(sc, run, table), k), now)
  }

  /** Wherever the lives died, no key holds anything else. */
  lemma {:induction false} RestartsMayHold(st: Settings, lives: seq<seq<World>>, cols: set<string>, table: string,
                                           t: Table, k: Key)
    requires st.Ok() && Lives(st, lives) && table in st.sink.schema.tables && LivesTidy(st, lives, cols, table)
    ensures AllLegal(OpsOn(LivesOps(lives), st.sink.schema.tables[table].current))
    ensures var sc, pk, name := st.sink.schema, st.sink.schema.tables[table].pk, st.sink.schema.tables[table].current;
            MayHold(sc, pk, lives, table, k, Slice(pk, t, k), Slice(pk, AfterLives(t, lives, name), k))
  {
    hide Lives, Settings.Ok, AcceptedTidy, Drifted, Slice, RunTable, AllLegal, OpsOn, StateOps, EndOf, KeyReplay,
      Confirmed,
      Buffered, LivesOps;
    var pk, name := st.sink.schema.tables[table].pk, st.sink.schema.tables[table].current;
    if lives == [] {
      NoLives(t, name);
    } else {
      var init, run := lives[..|lives| - 1], lives[|lives| - 1];
      LivesMore(st, lives, name, t);
      RestartsMayHold(st, init, cols, table, t, k);
      LifeDrifts(st, run, cols, table, AfterLives(t, init, name), k);
    }
  }

  lemma NoLives(t: Table, name: string)
    ensures AllLegal(OpsOn(LivesOps([]), name)) && AfterLives(t, [], name) == t
  {
  }

  /**
   A key that no life's last buffer touches holds the replay of the durable log, wherever the lives
   died, in the middle of a write too.
   */
  lemma {:induction false} RestartsReplayDurable(st: Settings, lives: seq<seq<World>>, cols: set<string>,
                                                 table: string, t: Table, k: Key)
    requires st.Ok() && Lives(st, lives) && table in st.sink.schema.tables && LivesTidy(st, lives, cols, table)
    requires forall j :: 0 <= j < |lives| ==>
               Untouched(st.sink.schema.tables[table].pk, Buffered(st.sink.schema, lives[j], table), k)
    ensures AllLegal(OpsOn(LivesOps(lives), st.sink.schema.tables[table].current))
    ensures var sc, pk, name := st.sink.schema, st.sink.schema.tables[table].pk, st.sink.schema.tables[table].current;
            Slice(pk, AfterLives(t, lives, name), k)
            == Slice(pk, ReplayTable(pk, t, TableEvents(sc, Durable(lives), table)), k)
  {
    hide Lives, Settings.Ok, AcceptedTidy, Drifted, Untouched, Slice, RunTable, AllLegal, OpsOn, StateOps, EndOf,
      KeyReplay,
      LivesOps, Buffered, Confirmed, Durable, TableEvents, ReplayTable;
    var sc, pk, name := st.sink.schema, st.sink.schema.tables[table].pk, st.sink.schema.tables[table].current;
    if lives == [] {
      NoLives(t, name);
      NothingDurable(sc, pk, table, t);
    } else {
      var init, run := lives[..|lives| - 1], lives[|lives| - 1];
      LivesMore(st, lives, name, t);
      RestartsReplayDurable(st, init, cols, table, t, k);
      var u, d := AfterLives(t, init, name), TableEvents(sc, Durable(init), table);
      LifeDrifts(st, run, cols, table, u, k);
      UntouchedStays(pk, Buffered(sc, run, table), k, KeyReplay(pk, Slice(pk, u, k), Confirmed(sc, run, table), k),
                     Slice(pk, AfterLives(t, lives, name), k));
      DurableMore(st, lives, cols, table, t, k);
    }
  }

  lemma NothingDurable(sc: Schema, pk: seq<string>, table: string, t: Table)
    ensures ReplayTable(pk, t, TableEvents(sc, Durable([]), table)) == t
  {
  }

  /** Replaying one life more, under one key. */
  lemma DurableMore(st: Settings, lives: seq<seq<World>>, cols: set<string>, table: string, t: Table, k: Key)
    requires table in st.sink.schema.tables && LivesTidy(st, lives, cols, table) && lives != []
    ensures var sc, pk, init, run := st.sink.schema, st.sink.schema.tables[table].pk, lives[..|lives| - 1],
            lives[|lives| - 1];
            Slice(pk, ReplayTable(pk, t, TableEvents(sc, Durable(lives), table)), k)
            == KeyReplay(pk, Slice(pk, ReplayTable(pk, t, TableEvents(sc, Durable(init), table)), k),
                         Confirmed(sc, run, table), k)
  {
    var sc, pk, init, run := st.sink.schema, st.sink.schema.tables[table].pk, lives[..|lives| - 1], lives[|lives| - 1];
    assert AcceptedTidy(st.sink, EndOf(run).sink, cols, table);
    assert Tidy(pk, cols, Confirmed(sc, run, table));
    hide LivesTidy, AcceptedTidy, Tidy, TableEvents, ReplayTable, Slice, EndOf, ReplayedAt, LogOf;
    var d := TableEvents(sc, Durable(init), table);
    TableEventsConcat(sc, Durable(init), LogOf(EndOf(run).sink.cycles), table);
    ReplayTableConcat(pk, t, d, Confirmed(sc, run, table));
    ReplayAt(pk, cols, ReplayTable(pk, t, d), Confirmed(sc, run, table), k);
  }

  // ---- The history after restarts ---------------------------------------------------------------

  /**
   The history rows that a life has put in a table: its confirmed ones, and what stopped attempts on
   its last buffer left.
   */
  function LifeRows(sc: Schema, run: seq<World>, table: string): Table
    requires table in sc.tables
  {
    var s := EndOf(run).sink;
    LogRows(sc, s.cycles, table) + LeftBehind(sc, s.buffer, s.pending, table)
  }

  /**
   Over any lives a history table gets exactly the rows of the confirmed events, and those of buffered
   events that a stopped attempt had inserted before the process died.
   */
  lemma {:induction false} RestartsHistory(st: Settings, lives: seq<seq<World>>, table: string, t: Table, r: Row)
    requires st.Ok() && Lives(st, lives) && table in st.sink.schema.tables
    ensures AllLegal(OpsOn(LivesOps(lives), st.sink.schema.tables[table].history))
    ensures r in AfterLives(t, lives, st.sink.schema.tables[table].history)
       <==> r in t || exists j :: 0 <= j < |lives| && r in LifeRows(st.sink.schema, lives[j], table)
  {
    hide Lives, Settings.Ok, RunTable, AllLegal, OpsOn, StateOps, EndOf, LivesOps, LifeRows;
    var sc, name := st.sink.schema, st.sink.schema.tables[table].history;
    if lives == [] {
      NoLives(t, name);
    } else {
      var n := |lives| - 1;
      var init, run := lives[..n], lives[n];
      LivesMore(st, lives, name, t);
      RestartsHistory(st, init, table, t, r);
      LifeHistory(st, run, table, AfterLives(t, init, name), r);
      if j :| 0 <= j < |init| && r in LifeRows(sc, init[j], table) {
        assert lives[j] == init[j];
      }
      if j :| 0 <= j < |lives| && r in LifeRows(sc, lives[j], table) {
        if j < n {
          assert init[j] == lives[j];
        }
      }
    }
  }

  lemma LifeHistory(st: Settings, run: seq<World>, table: string, t: Table, r: Row)
    requires st.Ok() && IsRun(st, run) && table in st.sink.schema.tables
    ensures AllLegal(OpsOn(StateOps(EndOf(run).sink), st.sink.schema.tables[table].history))
    ensures r in RunTable(t, OpsOn(StateOps(EndOf(run).sink), st.sink.schema.tables[table].history))
       <==> r in t || r in LifeRows(st.sink.schema, run, table)
  {
    assert run != [] && EndOf(run) == run[|run| - 1];
    hide IsRun, InStep, ExitsOk, DelaysOk, DecodedLog, SinkOk, Config.Ok, RunTable, AllLegal, OpsOn, StateOps, EndOf,
      LogRows,
      LeftBehind;
    ReachableKeeps(st, run, |run| - 1);
    SinkHistory(st.sink, EndOf(run).sink, table, t, r);
  }

  // ---- Lives that end between flushes -------------------------------------------------------------

  /** When no life died in the middle of a write, whole tables are the replay of the durable log. */
  lemma {:induction false} SettledRestartsReplay(st: Settings, lives: seq<seq<World>>, cols: map<string, set<string>>,
                                                 base: Db)
    requires st.Ok() && Lives(st, lives) && (forall j :: 0 <= j < |lives| ==> Settled(EndOf(lives[j])))
    requires var sc := st.sink.schema;
             && cols.Keys == sc.tables.Keys
             && forall table :: table in sc.tables ==>
                  && AllFaithful(sc, LivesCycles(lives), table)
                  && Tidy(sc.tables[table].pk, cols[table], TableEvents(sc, Durable(lives), table))
    ensures AllLegal(LivesOps(lives)) && AllMapped(st.sink.schema, Durable(lives))
    ensures forall table :: table in st.sink.schema.tables ==>
              var name := st.sink.schema.tables[table].current;
              SameRows(At(Run(base, LivesOps(lives)), name), At(ReplayDb(st.sink.schema, base, Durable(lives)), name))
  {
    hide AllFaithful, Tidy, SameRows, Schema.Valid, ValidCycles, Run, ReplayDb, AllLegal, AllMapped, TableEvents, Lives,
      LivesOps, Durable, CyclesOps, LogOf, LivesCycles;
    LivesAreCycles(st, lives);
    RunIsReplayDb(st.sink.schema, cols, LivesCycles(lives), base);
  }

  function LivesCycles(lives: seq<seq<World>>): seq<Cycle> {
    if lives == [] then [] else LivesCycles(lives[..|lives| - 1]) + EndOf(lives[|lives| - 1]).sink.cycles
  }

  /** Settled lives one after the other are one run of batches. */
  lemma {:induction false} LivesAreCycles(st: Settings, lives: seq<seq<World>>)
    requires st.Ok() && Lives(st, lives) && (forall j :: 0 <= j < |lives| ==> Settled(EndOf(lives[j])))
    ensures ValidCycles(st.sink.schema, LivesCycles(lives))
    ensures LivesOps(lives) == CyclesOps(LivesCycles(lives)) && Durable(lives) == LogOf(LivesCycles(lives))
  {
    hide IsRun, StateOps, EndOf, Config.Ok, ValidCycle, CyclesOps, LogOf, Settled;
    if lives == [] {
      NoCycles();
    } else {
      var init, run := lives[..|lives| - 1], lives[|lives| - 1];
      LivesAreCycles(st, init);
      assert IsRun(st, run) && Settled(EndOf(run));
      LifeIsCycles(st, run);
      CyclesOpsConcat(LivesCycles(init), EndOf(run).sink.cycles);
      LogOfConcat(LivesCycles(init), EndOf(run).sink.cycles);
    }
  }

  lemma NoCycles()
    ensures CyclesOps([]) == [] && LogOf([]) == []
  {
  }

  lemma LifeIsCycles(st: Settings, run: seq<World>)
    requires st.Ok() && IsRun(st, run) && Settled(EndOf(run))
    ensures ValidCycles(st.sink.schema, EndOf(run).sink.cycles)
    ensures StateOps(EndOf(run).sink) == CyclesOps(EndOf(run).sink.cycles)
  {
    assert run != [] && EndOf(run) == run[|run| - 1];
    hide IsRun, InStep, ExitsOk, DelaysOk, DecodedLog, Schema.Valid, ValidAttempts, ValidCycles, CyclesOps, EndOf;
    ReachableKeeps(st, run, |run| - 1);
    var ops := CyclesOps(EndOf(run).sink.cycles);
    assert OpsOf([]) == [] && ops + [] == ops;
  }

  lemma {:induction false} CyclesOpsConcat(a: seq<Cycle>, b: seq<Cycle>)
    ensures CyclesOps(a + b) == CyclesOps(a) + CyclesOps(b)
  {
    hide CyclesOps, CycleOps;
    if b == [] {
      assert a + b == a;
      NoCycles();
    } else {
      var init, c := b[..|b| - 1], b[|b| - 1];
      AppendLast(a, b);
      CyclesOpsConcat(a, init);
      CyclesSnoc(a + init, c);
      CyclesSnoc(init, c);
      Associative(CyclesOps(a), CyclesOps(init), CycleOps(c));
    }
  }

  lemma {:induction false} LogOfConcat(a: seq<Cycle>, b: seq<Cycle>)
    ensures LogOf(a + b) == LogOf(a) + LogOf(b)
  {
    hide LogOf;
    if b == [] {
      assert a + b == a;
      NoCycles();
    } else {
      var init, c := b[..|b| - 1], b[|b| - 1];
      AppendLast(a, b);
      LogOfConcat(a, init);
      CyclesSnoc(a + init, c);
      CyclesSnoc(init, c);
      Associative(LogOf(a), LogOf(init), c.batch);
    }
  }

  lemma CyclesSnoc(cycles: seq<Cycle>, c: Cycle)
    ensures CyclesOps(cycles + [c]) == CyclesOps(cycles) + CycleOps(c)
    ensures LogOf(cycles + [c]) == LogOf(cycles) + c.batch
  {
    hide CycleOps;
    assert (cycles + [c])[..|cycles|] == cycles;
  }
}
