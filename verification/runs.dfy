/** What holds in every reachable state of the service, and end to end. */
module Runs {
  import opened Values
  import opened Events
  import opened Parser
  import opened Codec
  import opened Stream
  import opened Tables
  import opened Statements
  import opened Batches
  import opened Replay
  import opened Attempts
  import opened Cycles
  import opened Source
  import opened HistoryTables
  import opened Sink
  import opened Pipeline

  // ---- Invariants over runs -------------------------------------------------------------------

  lemma StartKeeps(st: Settings)
    requires st.Ok()
    ensures Inv(st, START)
  {
    hide Schema.Valid;
    assert Processed([]) == [];
  }

  /** Every reachable state keeps the invariants. */
  lemma {:induction false} ReachableKeeps(st: Settings, run: seq<World>, i: nat)
    requires st.Ok() && IsRun(st, run) && i < |run|
    ensures Inv(st, run[i])
  {
    hide Next, Conserved, InStep, ExitsOk, DelaysOk, Settings.Ok;
    if i == 0 {
      StartKeeps(st);
    } else {
      ReachableKeeps(st, run, i - 1);
      assert Next(st, run[i - 1], run[i - 1 + 1]);
      NextConserves(st, run[i - 1], run[i]);
      NextExits(st, run[i - 1], run[i]);
      NextDelays(st, run[i - 1], run[i]);
    }
  }

  /**
   Conservation. In every reachable state the confirmed batches, one after the other, followed by
   the buffer, are exactly the mapped events decoded so far: none lost, doubled or reordered.
   */
  lemma NothingLostOrDoubled(st: Settings, run: seq<World>, i: nat)
    requires st.Ok() && IsRun(st, run) && i < |run|
    ensures LogOf(run[i].sink.cycles) + run[i].sink.buffer == DecodedLog(st.sink, run[i].sessions)
  {
    hide IsRun, Settings.Ok, SinkOk, DecodedLog, InStep, ExitsOk, DelaysOk;
    ReachableKeeps(st, run, i);
  }

  /** How many publishes raised since the last confirmed batch, counted along the run. */
  ghost function Raises(st: Settings, run: seq<World>, i: nat): nat
    requires i < |run|
  {
    if i == 0 then 0
    else if PublishingRaises(st, run[i - 1], run[i]) then Raises(st, run, i - 1) + 1
    else if run[i].sink.cycles != run[i - 1].sink.cycles then 0
    else Raises(st, run, i - 1)
  }

  lemma SinkKeepsStrikes(st: Settings, w: World, w': World)
    requires Next(st, w, w') && !PublishingRaises(st, w, w')
    ensures w'.sink.strikes == if w'.sink.cycles != w.sink.cycles then 0 else w.sink.strikes
  {
    hide Backoff, Parse, ValidCycle, ValidAttempts, Schema.Normalize, PublishRaised;
  }

  lemma {:induction false} StrikesAreRaises(st: Settings, run: seq<World>, i: nat)
    requires IsRun(st, run) && i < |run|
    ensures run[i].sink.strikes == Raises(st, run, i)
  {
    hide Next, PublishingRaises;
    if i == 0 {
    } else {
      StrikesAreRaises(st, run, i - 1);
      assert Next(st, run[i - 1], run[i - 1 + 1]);
      if PublishingRaises(st, run[i - 1], run[i]) {
        RaiseIsStrike(st, run[i - 1], run[i]);
      } else {
        SinkKeepsStrikes(st, run[i - 1], run[i]);
      }
    }
  }

  lemma RaiseIsStrike(st: Settings, w: World, w': World)
    requires PublishingRaises(st, w, w')
    ensures w'.sink.strikes == w.sink.strikes + 1
  {
    hide GaveUp;
  }

  /** The buffer holds fewer events than a batch, plus one for each publish that raised meanwhile. */
  lemma BufferIsBounded(st: Settings, run: seq<World>, i: nat)
    requires st.Ok() && IsRun(st, run) && i < |run|
    ensures |run[i].sink.buffer| <= st.sink.batchSize - 1 + Raises(st, run, i)
  {
    hide IsRun, Settings.Ok, DecodedLog, InStep, ExitsOk, DelaysOk, ValidAttempts, ValidCycles, Raises;
    ReachableKeeps(st, run, i);
    StrikesAreRaises(st, run, i);
  }

  /** Over a streak of failed connects the sleeps never shrink, and none exceeds the cap. */
  lemma DelaysGrowToCap(st: Settings, run: seq<World>, i: nat, m: nat, n: nat)
    requires st.Ok() && IsRun(st, run) && i < |run| && m <= n < |run[i].delays|
    ensures run[i].delays[m] <= run[i].delays[n] <= st.backoffMax
  {
    hide IsRun, Settings.Ok, Conserved, InStep, ExitsOk, Backoff;
    ReachableKeeps(st, run, i);
  }

  /**
   What one failure sleeps: a first failed connect the base, a failure inside a session half of it, and
   each later failed connect twice as long up to the seventh; none more than the cap.
   */
  lemma {:induction false} SleepsDouble(st: Settings, run: seq<World>, i: nat)
    requires st.Ok() && IsRun(st, run) && i + 1 < |run|
    requires run[i + 1].delays != run[i].delays && run[i + 1].delays != []
    ensures var w, w' := run[i], run[i + 1];
            var base, cap, d := st.backoffBase, st.backoffMax, w'.delays[|w'.delays| - 1];
            && w'.delays == w.delays + [d]
            && (w.phase.Polling? || w.phase.Draining? ==>
                  w.delays == [] && w'.attempt == 0 && d == if base / 2.0 <= cap then base / 2.0 else cap)
            && (w.phase.Idle? ==>
                  && w'.attempt == w.attempt + 1
                  && (w.delays == [] ==> w'.attempt == 1 && d == if base <= cap then base else cap)
                  && (w.delays != [] && w'.attempt <= 7 ==> Doubles(w.delays[|w.delays| - 1], d, cap))
                  && (w.delays != [] && w'.attempt > 7 ==> d == w.delays[|w.delays| - 1]))
            && !w.phase.Stopped?
  {
    var w, w' := run[i], run[i + 1];
    assert Next(st, w, w');
    hide IsRun, Next, Conserved, InStep, ExitsOk, Backoff, Doubles;
    ReachableKeeps(st, run, i);
    StepDelays(st, w, w');
    BackoffDoubles(st, w.attempt);
  }

  /** A table that starts with one row per key has one row per key in every reachable state. */
  lemma OneRowPerKey(st: Settings, run: seq<World>, i: nat, base: Db, table: string)
    requires st.Ok() && IsRun(st, run) && i < |run| && table in st.sink.schema.tables
    requires PkUnique(st.sink.schema.tables[table].pk, At(base, st.sink.schema.tables[table].current))
    ensures AllLegal(StateOps(run[i].sink))
    ensures PkUnique(st.sink.schema.tables[table].pk,
                     At(Run(base, StateOps(run[i].sink)), st.sink.schema.tables[table].current))
  {
    hide IsRun, Config.Ok, SinkOk, PkUnique, DecodedLog, InStep, ExitsOk, DelaysOk, Run, AllLegal;
    ReachableKeeps(st, run, i);
    SinkKeepsKeysUnique(st.sink, run[i].sink, base, table);
  }

  /**
   Every current table in every reachable state, between flushes or not: under each key it is the
   replay of the confirmed log, except for what stopped attempts on the buffer may have made of
   the keys that the buffer touches.
   */
  lemma {:induction false} TableInAnyState(st: Settings, run: seq<World>, i: nat, cols: set<string>, base: Db,
                                           table: string, k: Key)
    requires st.Ok() && IsRun(st, run) && i < |run| && table in st.sink.schema.tables
    requires AcceptedTidy(st.sink, run[i].sink, cols, table)
    ensures AllLegal(StateOps(run[i].sink))
    ensures var sc, pk, name, s := st.sink.schema, st.sink.schema.tables[table].pk,
                                   st.sink.schema.tables[table].current, run[i].sink;
            var was := Slice(pk, ReplayTable(pk, At(base, name), TableEvents(sc, LogOf(s.cycles), table)), k);
            var now := Slice(pk, At(Run(base, StateOps(s)), name), k);
            && Drifted(pk, TableEvents(sc, s.buffer, table), k, was, now)
            && (Untouched(pk, TableEvents(sc, s.buffer, table), k) ==> now == was)
  {
    hide IsRun, Config.Ok, SinkOk, DecodedLog, InStep, ExitsOk, DelaysOk, Run, AllLegal, AcceptedTidy, Drifted,
      Untouched,
      TableEvents, ReplayTable, RunTable, Slice, LogOf, StateOps, OpsOn;
    ReachableKeeps(st, run, i);
    var sc, pk, name, s := st.sink.schema, st.sink.schema.tables[table].pk, st.sink.schema.tables[table].current,
                           run[i].sink;
    SinkLegal(st.sink, s);
    RunAt(base, StateOps(s), name);
    SinkDrifts(st.sink, s, cols, table, At(base, name), k);
    if Untouched(pk, TableEvents(sc, s.buffer, table), k) {
      UntouchedStays(pk, TableEvents(sc, s.buffer, table), k,
                     Slice(pk, ReplayTable(pk, At(base, name), TableEvents(sc, LogOf(s.cycles), table)), k),
                     Slice(pk, At(Run(base, StateOps(s)), name), k));
    }
  }

  // ---- Messages that leave the slot and are never decoded ------------------------------------------

  /** The messages of a session's last poll that were not processed. */
  function LeftOver(polls: seq<Poll>): seq<Message> {
    if polls == [] then []
    else
      var p := polls[|polls| - 1];
      if p.done <= |p.taken| then p.taken[p.done..] else []
  }

  lemma {:induction false} CompletedIsProcessed(polls: seq<Poll>)
    requires forall i :: 0 <= i < |polls| ==> PollOk(polls[i]) && polls[i].exit.Completed?
    ensures Consumed(polls) == Processed(polls)
  {
    hide Consumed, Processed;
    if polls == [] {
      NoPolls();
    } else {
      var p := polls[|polls| - 1];
      CompletedIsProcessed(polls[..|polls| - 1]);
      LogsSnoc(polls);
      assert p.taken[..p.done] == p.taken;
    }
  }

  /** How a session's last poll ended says whether messages are left over. */
  predicate TailMatchesExit(polls: seq<Poll>) {
    if polls == [] then LeftOver(polls) == []
    else
      var p := polls[|polls| - 1];
      match p.exit
      case Completed => LeftOver(polls) == []
      case ByShutdown => LeftOver(polls) != []
      case ByPoll => LeftOver(polls) == p.taken != []
      case ByPublish => LeftOver(polls) != [] <==> p.done < |p.taken|
      case ByParse => LeftOver(polls) != [] <==> p.done < |p.taken|
      case Running => true
  }

  lemma LogsSnoc(polls: seq<Poll>)
    requires polls != [] && polls[|polls| - 1].done <= |polls[|polls| - 1].taken|
    ensures var init, p := polls[..|polls| - 1], polls[|polls| - 1];
            && Consumed(polls) == Consumed(init) + p.taken
            && Processed(polls) == Processed(init) + p.taken[..p.done]
            && LeftOver(polls) == p.taken[p.done..]
  {
  }

  lemma NoPolls()
    ensures Consumed([]) == [] && Processed([]) == [] && LeftOver([]) == []
  {
  }

  lemma InitCompleted(polls: seq<Poll>)
    requires PollsOk(polls) && polls != []
    ensures PollOk(polls[|polls| - 1])
    ensures var init := polls[..|polls| - 1]; forall i :: 0 <= i < |init| ==> PollOk(init[i]) && init[i].exit.Completed?
  {
    hide PollOk;
  }

  lemma TailSays(polls: seq<Poll>)
    requires polls != [] ==> PollOk(polls[|polls| - 1])
    ensures TailMatchesExit(polls)
  {
  }

  /** A session has processed everything it consumed, except exactly the tail of its last poll. */
  lemma {:induction false} ConsumedSplits(polls: seq<Poll>)
    requires PollsOk(polls)
    ensures Consumed(polls) == Processed(polls) + LeftOver(polls)
    ensures TailMatchesExit(polls)
  {
    hide PollsOk, Consumed, Processed, LeftOver, TailMatchesExit;
    if polls == [] {
      NoPolls();
    } else {
      var init, p := polls[..|polls| - 1], polls[|polls| - 1];
      InitCompleted(polls);
      CompletedIsProcessed(init);
      LogsSnoc(polls);
      assert p.taken == p.taken[..p.done] + p.taken[p.done..];
    }
    TailSays(polls);
  }

  /**
   In every reachable state a session has processed everything it consumed except the tail of its
   last poll. There is a tail after every poll that was left by shutdown or failed itself, after one
   left by a raising publish or an unrepresentable timestamp exactly if messages followed, and
   after no other poll but the one that is being drained.
   */
  lemma UnprocessedIsOneTail(st: Settings, run: seq<World>, i: nat, s: nat)
    requires st.Ok() && IsRun(st, run) && i < |run| && s < |run[i].sessions|
    ensures var polls := run[i].sessions[s];
            && Consumed(polls) == Processed(polls) + LeftOver(polls)
            && TailMatchesExit(polls)
            && (polls != [] && polls[|polls| - 1].exit.Running? ==>
                  s == |run[i].sessions| - 1 && run[i].phase.Draining?)
  {
    hide IsRun, Settings.Ok, Conserved, InStep, DelaysOk, PollsOk, Consumed, Processed, InPoll, LeftOver,
      TailMatchesExit;
    ReachableKeeps(st, run, i);
    ConsumedSplits(run[i].sessions[s]);
  }

  lemma LastPollSet(w: World, p: Poll)
    requires w.sessions != [] && LastSession(w) != []
    ensures LastSession(SetPoll(w, p)) != [] && ThisPoll(SetPoll(w, p)) == p
  {
  }

  lemma MessageMarks(st: Settings, w: World, w': World)
    requires MessageStep(st, w, w')
    ensures LastSession(w') != []
    ensures var exit := ThisPoll(w').exit;
            && (exit.Running? || exit.ByPublish? || exit.ByParse?)
            && (exit.ByPublish? ==> PublishingRaises(st, w, w'))
            && (exit.ByParse? ==> ParsingRaises(st, w, w'))
  {
    hide Backoff, Published, PublishRaised, SetPoll, NextStep, Schema.Normalize;
    var p := ThisPoll(w).(done := ThisPoll(w).done + 1);
    LastPollSet(w, p.(exit := Running));
    LastPollSet(w, p.(exit := ByPublish));
    LastPollSet(w, p.(exit := ByParse));
  }

  lemma PollMarks(w: World, w': World)
    requires PollStep(w, w')
    ensures LastSession(w') != []
    ensures var exit := ThisPoll(w').exit;
            && (exit.Running? || exit.Completed? || exit.ByShutdown?)
            && (exit.Completed? ==> FinishesPoll(w, w'))
            && (exit.ByShutdown? ==> w.shutdown && BreaksPoll(w, w'))
  {
  }

  lemma LossMarks(st: Settings, w: World, w': World, taken: seq<Message>)
    requires PollLoses(st, w, w', taken)
    ensures LastSession(w') != [] && ThisPoll(w').exit.ByPoll?
  {
    hide Backoff;
  }

  /** How a poll is marked says at which step its loop ended: each mark has one cause. */
  lemma ExitsHaveCauses(st: Settings, w: World, w': World)
    requires Next(st, w, w') && |w'.sessions| == |w.sessions| && LastSession(w') != LastSession(w)
    ensures LastSession(w') != []
    ensures ThisPoll(w').exit.ByShutdown? ==> w.shutdown && BreaksPoll(w, w')
    ensures ThisPoll(w').exit.ByPublish? ==> PublishingRaises(st, w, w')
    ensures ThisPoll(w').exit.ByParse? ==> ParsingRaises(st, w, w')
    ensures ThisPoll(w').exit.ByPoll? ==> exists taken :: PollLoses(st, w, w', taken)
    ensures ThisPoll(w').exit.Completed? ==> FinishesPoll(w, w')
  {
    hide Backoff, Flushed, GaveUp, SkipsMessage, PublishesMessage, PublishingRaises, ParsingRaises, Polls, FinishesPoll,
      BreaksPoll, PollLoses;
    if MessageStep(st, w, w') {
      MessageMarks(st, w, w');
    } else if PollStep(w, w') {
      PollMarks(w, w');
    } else if taken :| PollLoses(st, w, w', taken) {
      LossMarks(st, w, w', taken);
    }
  }

  /**
   A run that loses messages: a signal arrives while a poll is being drained, and the service
   stops cleanly with the messages gone from the slot and never decoded.
   */
  lemma ShutdownCanDropMessages(st: Settings, taken: seq<Message>) returns (run: seq<World>)
    requires st.Ok() && taken != []
    ensures IsRun(st, run)
    ensures var w := run[|run| - 1];
            w.phase.Stopped? && w.sink.buffer == [] && |w.sessions| == 1
            && LeftOver(w.sessions[0]) == taken
  {
    hide Config.Ok;
    var before, after := Poll(taken, 0, Running), Poll(taken, 0, ByShutdown);
    var w1 := START.(phase := Polling, sessions := [[]]);
    var w2 := w1.(phase := Draining, sessions := [[before]]);
    var w3 := w2.(shutdown := true);
    var w4 := w3.(phase := Polling, sessions := [[after]]);
    var w5 := w4.(phase := Idle);
    run := [START, w1, w2, w3, w4, w5, w5.(phase := Stopped)];
    assert Connects(START, w1) by { assert START.sessions + [[]] == [[]]; }
    assert Polls(w1, w2, taken) by { FirstPollOpens(w1, w2, before); }
    assert BreaksPoll(w3, w4) by { OnlyPollBreaks(w3, w4, before, after); }
    assert LeavesSession(st, w4, w5);
    assert Stops(st, w5, w5.(phase := Stopped));
    assert LeftOver([after]) == taken;
  }

  lemma FirstPollOpens(w: World, w': World, p: Poll)
    requires w.phase.Polling? && !w.shutdown && w.sessions == [[]] && p.taken != [] && p == Poll(p.taken, 0, Running)
    requires w' == w.(phase := Draining, sessions := [[p]])
    ensures Polls(w, w', p.taken)
  {
    assert LastSession(w) == [] && [] + [p] == [p];
    assert SetLastSession(w, [p]).sessions == [[p]];
  }

  lemma OnlyPollBreaks(w: World, w': World, p: Poll, q: Poll)
    requires w.phase.Draining? && w.shutdown && w.sessions == [[p]] && p.done < |p.taken| && q == p.(exit := ByShutdown)
    requires w' == w.(phase := Polling, sessions := [[q]])
    ensures BreaksPoll(w, w')
  {
    assert LastSession(w) == [p] && ThisPoll(w) == p;
    assert [p][..0] + [q] == [q];
    assert SetPoll(w, q).sessions == [[q]];
  }

  // ---- The confirmed watermark --------------------------------------------------------------------------

  /** Commit LSNs are positive and never decrease. */
  predicate Ordered(log: seq<ChangeEvent>) {
    && (forall i :: 0 <= i < |log| ==> log[i].commitLsn > 0)
    && (forall i, j :: 0 <= i < j < |log| ==> log[i].commitLsn <= log[j].commitLsn)
  }

  lemma {:induction false} WatermarkIsLast(batch: seq<ChangeEvent>)
    requires batch != [] && Ordered(batch)
    ensures Watermark(batch) == batch[|batch| - 1].commitLsn
  {
    if |batch| == 1 {
    } else {
      WatermarkIsLast(batch[..|batch| - 1]);
    }
  }

  lemma {:induction false} LogPrefix(cycles: seq<Cycle>, n: nat)
    requires n <= |cycles|
    ensures LogOf(cycles[..n]) <= LogOf(cycles)
  {
    if n == |cycles| {
      assert cycles[..n] == cycles;
    } else {
      assert cycles[..|cycles| - 1][..n] == cycles[..n];
      LogPrefix(cycles[..|cycles| - 1], n);
    }
  }

  /** The `i`-th confirmed batch inside the log. */
  lemma BatchInLog(cycles: seq<Cycle>, i: nat)
    requires i < |cycles|
    ensures LogOf(cycles[..i + 1]) == LogOf(cycles[..i]) + cycles[i].batch
  {
    assert cycles[..i + 1][..i] == cycles[..i];
  }

  lemma OrderedPart(log: seq<ChangeEvent>, a: nat, b: nat)
    requires Ordered(log) && a <= b <= |log|
    ensures Ordered(log[a..b])
  {
    forall i, j | 0 <= i < j < b - a ensures log[a..b][i].commitLsn <= log[a..b][j].commitLsn {
      assert log[a..b][i] == log[a + i] && log[a..b][j] == log[a + j];
    }
  }

  lemma WatermarkInLog(sc: Schema, cycles: seq<Cycle>, log: seq<ChangeEvent>, i: nat)
    requires ValidCycles(sc, cycles) && LogOf(cycles) <= log && Ordered(log) && i < |cycles|
    ensures var n := |LogOf(cycles[..i + 1])|;
            && cycles[i].batch != [] && 0 < n <= |log| && LogOf(cycles[..i + 1]) == log[..n]
            && Watermark(cycles[i].batch) == log[n - 1].commitLsn
  {
    hide Program, Resolves, ValidAttempts, Watermark, LogOf, Ordered;
    assert ValidCycle(sc, cycles[i]);
    BatchInLog(cycles, i);
    LogPrefix(cycles, i + 1);
    var a, n := |LogOf(cycles[..i])|, |LogOf(cycles[..i + 1])|;
    assert log[..n] == LogOf(cycles[..i + 1]);
    assert log[a..n] == log[..n][a..] == cycles[i].batch;
    OrderedPart(log, a, n);
    WatermarkIsLast(cycles[i].batch);
  }

  /** Watermarks never go back. */
  lemma {:induction false} WatermarksGrow(sc: Schema, cycles: seq<Cycle>, log: seq<ChangeEvent>, i: nat, j: nat)
    requires ValidCycles(sc, cycles) && LogOf(cycles) <= log && Ordered(log) && i <= j < |cycles|
    ensures cycles[i].batch != [] && cycles[j].batch != []
    ensures Watermark(cycles[i].batch) <= Watermark(cycles[j].batch)
  {
    hide ValidCycles, LogOf, Watermark;
    WatermarkInLog(sc, cycles, log, i);
    WatermarkInLog(sc, cycles, log, j);
    LogPrefix(cycles[..j + 1], i + 1);
    assert cycles[..j + 1][..i + 1] == cycles[..i + 1];
  }

  /** Every event with a strictly smaller commit LSN is in a confirmed batch by then. */
  lemma {:induction false} BelowWatermarkIsDurable(sc: Schema, cycles: seq<Cycle>, log: seq<ChangeEvent>, i: nat,
                                                   n: nat)
    requires ValidCycles(sc, cycles) && LogOf(cycles) <= log && Ordered(log) && i < |cycles| && n < |log|
    ensures cycles[i].batch != []
    ensures log[n].commitLsn < Watermark(cycles[i].batch) ==>
              n < |LogOf(cycles[..i + 1])| && LogOf(cycles[..i + 1])[n] == log[n]
  {
    hide ValidCycles, LogOf, Watermark;
    WatermarkInLog(sc, cycles, log, i);
  }

  /** The mapped events of everything the slot handed out, whether or not it was processed. */
  function ConsumedLog(cfg: Config, sessions: seq<seq<Poll>>): seq<ChangeEvent> {
    if sessions == [] then []
    else ConsumedLog(cfg, sessions[..|sessions| - 1]) + MappedOf(cfg, Decoded(Consumed(sessions[|sessions| - 1])))
  }

  lemma {:induction false} MappedGrows(cfg: Config, a: seq<ChangeEvent>, b: seq<ChangeEvent>)
    requires a <= b
    ensures MappedOf(cfg, a) <= MappedOf(cfg, b)
  {
    assert b == a + b[|a|..];
    MappedOfConcat(cfg, a, b[|a|..]);
  }

  /** No session before the last dropped a tail. */
  predicate NothingDropped(sessions: seq<seq<Poll>>) {
    forall i :: 0 <= i < |sessions| - 1 ==> LeftOver(sessions[i]) == []
  }

  lemma {:induction false} UndroppedLog(cfg: Config, sessions: seq<seq<Poll>>)
    requires forall i :: 0 <= i < |sessions| ==> PollsOk(sessions[i]) && LeftOver(sessions[i]) == []
    ensures DecodedLog(cfg, sessions) == ConsumedLog(cfg, sessions)
  {
    hide PollsOk, LeftOver, Processed, Consumed, MappedOf, Decoded;
    if sessions == [] {
    } else {
      UndroppedLog(cfg, sessions[..|sessions| - 1]);
      ConsumedSplits(sessions[|sessions| - 1]);
      assert Processed(sessions[|sessions| - 1]) + [] == Processed(sessions[|sessions| - 1]);
    }
  }

  lemma DecodedIsPrefix(cfg: Config, sessions: seq<seq<Poll>>)
    requires (forall i :: 0 <= i < |sessions| ==> PollsOk(sessions[i])) && NothingDropped(sessions)
    ensures DecodedLog(cfg, sessions) <= ConsumedLog(cfg, sessions)
  {
    hide PollsOk, LeftOver, Processed, Consumed, MappedOf, Decoded;
    if sessions != [] {
      var last := sessions[|sessions| - 1];
      UndroppedLog(cfg, sessions[..|sessions| - 1]);
      ConsumedSplits(last);
      DecodedGrows(Processed(last), LeftOver(last));
      MappedGrows(cfg, Decoded(Processed(last)), Decoded(Consumed(last)));
    }
  }

  /**
   In every reachable state, if no tail was dropped and the WAL arrives in commit order: of the
   events of everything consumed, those below a returned watermark are durable, and watermarks
   never go back.
   */
  lemma {:induction false} WatermarkIsSafe(st: Settings, run: seq<World>, i: nat, c: nat, d: nat, n: nat)
    requires st.Ok() && IsRun(st, run) && i < |run| && NothingDropped(run[i].sessions)
    requires Ordered(ConsumedLog(st.sink, run[i].sessions))
    requires c <= d < |run[i].sink.cycles| && n < |ConsumedLog(st.sink, run[i].sessions)|
    ensures var cycles, log := run[i].sink.cycles, ConsumedLog(st.sink, run[i].sessions);
            && cycles[c].batch != [] && cycles[d].batch != []
            && Watermark(cycles[c].batch) <= Watermark(cycles[d].batch)
            && (log[n].commitLsn < Watermark(cycles[c].batch) ==>
                  n < |LogOf(cycles[..c + 1])| && LogOf(cycles[..c + 1])[n] == log[n])
  {
    hide IsRun, Settings.Ok, InStep, DelaysOk, NothingDropped, Ordered, ConsumedLog, DecodedLog, LogOf, Watermark,
      ValidAttempts, ValidCycles, PollsOk, Schema.Valid;
    ReachableKeeps(st, run, i);
    DecodedIsPrefix(st.sink, run[i].sessions);
    assert LogOf(run[i].sink.cycles) <= Accepted(run[i].sink);
    BelowWatermarkIsDurable(st.sink.schema, run[i].sink.cycles, ConsumedLog(st.sink, run[i].sessions), c, n);
    WatermarksGrow(st.sink.schema, run[i].sink.cycles, ConsumedLog(st.sink, run[i].sessions), c, d);
  }

  // ---- From WAL bytes to tables -------------------------------------------------------------------------------

  /** The mapped events that the streams of the sessions denote. */
  function MeaningLog(cfg: Config, streams: seq<seq<Sent>>): seq<ChangeEvent> {
    if streams == [] then []
    else MeaningLog(cfg, streams[..|streams| - 1]) + MappedOf(cfg, Meaning(streams[|streams| - 1]))
  }

  /** What each session took from the slot is the encoding of a stream of well-formed messages. */
  ghost predicate Carries(sessions: seq<seq<Poll>>, streams: seq<seq<Sent>>) {
    && |sessions| == |streams|
    && (forall i :: 0 <= i < |streams| ==> AllWellFormed(streams[i]) && Consumed(sessions[i]) == EncodeAll(streams[i]))
  }

  /** No session took a message that it did not process. */
  predicate NothingLost(sessions: seq<seq<Poll>>) {
    forall i :: 0 <= i < |sessions| ==> LeftOver(sessions[i]) == []
  }

  /** What each session processed is the encoding of a stream. */
  ghost predicate Decodes(sessions: seq<seq<Poll>>, streams: seq<seq<Sent>>) {
    && |sessions| == |streams|
    && (forall i :: 0 <= i < |streams| ==> AllWellFormed(streams[i]) && Processed(sessions[i]) == EncodeAll(streams[i]))
  }

  /** The first messages of a stream, as many as the session processed. */
  function KeptOf(polls: seq<Poll>, stream: seq<Sent>): seq<Sent> {
    if |Processed(polls)| <= |stream| then stream[..|Processed(polls)|] else stream
  }

  function Kept(sessions: seq<seq<Poll>>, streams: seq<seq<Sent>>): seq<seq<Sent>>
    requires |sessions| == |streams|
  {
    seq(|streams|, i requires 0 <= i < |streams| => KeptOf(sessions[i], streams[i]))
  }

  lemma EncodePart(stream: seq<Sent>, a: nat, b: nat)
    requires AllWellFormed(stream) && a <= b <= |stream|
    ensures AllWellFormed(stream[a..b]) && EncodeAll(stream[a..b]) == EncodeAll(stream)[a..b]
  {
    hide WellFormed, Encode;
    assert forall i :: 0 <= i < b - a ==> stream[a..b][i] == stream[a + i];
  }

  lemma SessionKept(polls: seq<Poll>, stream: seq<Sent>)
    requires PollsOk(polls) && AllWellFormed(stream) && Consumed(polls) == EncodeAll(stream)
    ensures var kept := KeptOf(polls, stream);
            && kept <= stream && AllWellFormed(kept) && Processed(polls) == EncodeAll(kept)
            && AllWellFormed(stream[|kept|..]) && LeftOver(polls) == EncodeAll(stream[|kept|..])
            && (LeftOver(polls) == [] ==> kept == stream)
  {
    hide PollsOk, Consumed, Processed, LeftOver, AllWellFormed, EncodeAll, TailMatchesExit;
    ConsumedSplits(polls);
    EncodePart(stream, 0, |stream|);
    assert stream[0..|stream|] == stream && |EncodeAll(stream)| == |stream| by { EncodeSize(stream); }
    var n := |Processed(polls)|;
    EncodePart(stream, 0, n);
    EncodePart(stream, n, |stream|);
    assert stream[0..n] == stream[..n] && stream[n..|stream|] == stream[n..];
    assert Consumed(polls)[0..n] == Processed(polls) && Consumed(polls)[n..|stream|] == LeftOver(polls);
  }

  lemma EncodeSize(stream: seq<Sent>)
    requires AllWellFormed(stream)
    ensures |EncodeAll(stream)| == |stream|
  {
    hide Encode;
  }

  /**
   What a dropped tail costs: in every reachable state each session has decoded exactly a first
   part of its stream, and the rest is what its last poll left over. If nothing was left over, that
   part is everything.
   */
  lemma {:induction false} WhatWasDecoded(st: Settings, run: seq<World>, i: nat, streams: seq<seq<Sent>>)
    requires st.Ok() && IsRun(st, run) && i < |run| && Carries(run[i].sessions, streams)
    ensures Decodes(run[i].sessions, Kept(run[i].sessions, streams))
    ensures forall s :: 0 <= s < |streams| ==>
              var kept := KeptOf(run[i].sessions[s], streams[s]);
              kept <= streams[s] && AllWellFormed(streams[s][|kept|..])
              && LeftOver(run[i].sessions[s]) == EncodeAll(streams[s][|kept|..])
    ensures NothingLost(run[i].sessions) ==> Kept(run[i].sessions, streams) == streams
  {
    hide IsRun, Settings.Ok, Conserved, InStep, DelaysOk, PollsOk, Consumed, Processed, InPoll, LeftOver, KeptOf,
      AllWellFormed, EncodeAll;
    ReachableKeeps(st, run, i);
    forall s | 0 <= s < |streams| {
      SessionKept(run[i].sessions[s], streams[s]);
    }
  }

  lemma {:induction false} DecodedIsMeant(cfg: Config, sessions: seq<seq<Poll>>, streams: seq<seq<Sent>>)
    requires Decodes(sessions, streams)
    ensures DecodedLog(cfg, sessions) == MeaningLog(cfg, streams)
  {
    hide Processed, EncodeAll, Decoded, Meaning, MappedOf, AllWellFormed;
    if sessions == [] {
    } else {
      var n := |sessions| - 1;
      DecodedIsMeant(cfg, sessions[..n], streams[..n]);
      StreamInverts(streams[n]);
    }
  }

  /** Between flushes: every attempt on the buffer has been absorbed by a confirmed batch. */
  predicate Settled(w: World) { w.sink.pending == [] }

  /**
   In a settled state only the confirmed batches have reached the warehouse, and the buffer is the
   rest of the log.
   */
  lemma SettledState(st: Settings, run: seq<World>, i: nat, streams: seq<seq<Sent>>)
    requires st.Ok() && IsRun(st, run) && i < |run| && Settled(run[i]) && Decodes(run[i].sessions, streams)
    ensures ValidCycles(st.sink.schema, run[i].sink.cycles)
    ensures StateOps(run[i].sink) == CyclesOps(run[i].sink.cycles) && AllLegal(StateOps(run[i].sink))
    ensures LogOf(run[i].sink.cycles) + run[i].sink.buffer == MeaningLog(st.sink, streams)
    ensures AllMapped(st.sink.schema, LogOf(run[i].sink.cycles))
  {
    hide IsRun, InStep, ExitsOk, DelaysOk, DecodedLog, MeaningLog, Decodes, Schema.Valid, ValidAttempts, ValidCycles,
      AllLegal,
      AllMapped, CyclesOps, LogOf;
    ReachableKeeps(st, run, i);
    DecodedIsMeant(st.sink, run[i].sessions, streams);
    CyclesLegal(st.sink.schema, run[i].sink.cycles);
    var cycles := run[i].sink.cycles;
    assert OpsOf([]) == [] && CyclesOps(cycles) + [] == CyclesOps(cycles);
  }

  /** The tables, as far as the sessions processed their messages. */
  lemma {:induction false} DecodedToTables(st: Settings, cols: map<string, set<string>>, run: seq<World>, i: nat,
                                           streams: seq<seq<Sent>>, base: Db)
    requires st.Ok() && IsRun(st, run) && i < |run| && Settled(run[i]) && Decodes(run[i].sessions, streams)
    requires var sc := st.sink.schema;
             && cols.Keys == sc.tables.Keys
             && forall table :: table in sc.tables ==>
                  && AllFaithful(sc, run[i].sink.cycles, table)
                  && Tidy(sc.tables[table].pk, cols[table], TableEvents(sc, LogOf(run[i].sink.cycles), table))
    ensures AllLegal(StateOps(run[i].sink)) && AllMapped(st.sink.schema, LogOf(run[i].sink.cycles))
    ensures LogOf(run[i].sink.cycles) + run[i].sink.buffer == MeaningLog(st.sink, streams)
    ensures forall table :: table in st.sink.schema.tables ==>
              var name := st.sink.schema.tables[table].current;
              SameRows(At(Run(base, StateOps(run[i].sink)), name),
                       At(ReplayDb(st.sink.schema, base, LogOf(run[i].sink.cycles)), name))
  {
    hide IsRun, MeaningLog, Decodes, AllFaithful, Tidy, SameRows, Schema.Valid, ValidCycles, Run, ReplayDb, AllLegal,
      AllMapped, TableEvents, CyclesOps, LogOf;
    SettledState(st, run, i, streams);
    RunIsReplayDb(st.sink.schema, cols, run[i].sink.cycles, base);
  }

  /**
   End to end. If no session dropped a message, then between flushes, after any reconnects, retries
   and re-batching, each current table holds the rows that replaying the events of the WAL one by
   one gives, up to the events still in the buffer; provided each confirmed batch met the
   condition of `Cycles.Faithful`.
   */
  lemma {:induction false} WalToTables(st: Settings, cols: map<string, set<string>>, run: seq<World>, i: nat,
                                       streams: seq<seq<Sent>>, base: Db)
    requires st.Ok() && IsRun(st, run) && i < |run| && Settled(run[i])
    requires Carries(run[i].sessions, streams) && NothingLost(run[i].sessions)
    requires var sc := st.sink.schema;
             && cols.Keys == sc.tables.Keys
             && forall table :: table in sc.tables ==>
                  && AllFaithful(sc, run[i].sink.cycles, table)
                  && Tidy(sc.tables[table].pk, cols[table], TableEvents(sc, LogOf(run[i].sink.cycles), table))
    ensures AllLegal(StateOps(run[i].sink)) && AllMapped(st.sink.schema, LogOf(run[i].sink.cycles))
    ensures LogOf(run[i].sink.cycles) + run[i].sink.buffer == MeaningLog(st.sink, streams)
    ensures forall table :: table in st.sink.schema.tables ==>
              var name := st.sink.schema.tables[table].current;
              SameRows(At(Run(base, StateOps(run[i].sink)), name),
                       At(ReplayDb(st.sink.schema, base, LogOf(run[i].sink.cycles)), name))
  {
    hide *;
    WhatWasDecoded(st, run, i, streams);
    DecodedToTables(st, cols, run, i, streams, base);
  }

  // ---- Against the source and the history ----------------------------------------------------------------------

  lemma TakenIsShare(v: View, cfg: Config, e: Option<ChangeEvent>)
    requires v.Ok() && cfg.schema == v.sc
    ensures TableEvents(v.sc, if e.Some? then Taken(cfg, e.value) else [], v.table)
         == if e.Some? && v.sc.Normalize(e.value.table) == v.table then [e.value.(table := v.table)] else []
  {
    hide Schema.NormalizeFrom;
    if e.Some? && IsMapped(cfg, e.value) {
      var x := Normalized(cfg, e.value);
      assert v.sc.Normalize(x.table) == x.table;
      assert [x][..0] == [];
    }
  }

  lemma {:induction false} StreamShare(v: View, cfg: Config, stream: seq<Sent>)
    requires v.Ok() && cfg.schema == v.sc
    ensures TableEvents(v.sc, MappedOf(cfg, Meaning(stream)), v.table) == Share(v, MadeBy(stream))
  {
    hide View.Ok, TableEvents, Taken, Denotes, Schema.Normalize, Context;
    if stream == [] {
      NothingShared(v);
    } else {
      var init, last := stream[..|stream| - 1], stream[|stream| - 1];
      var e := Denotes(Context(init), last.msg, last.lsn).1;
      StreamShare(v, cfg, init);
      if e.Some? {
        MappedOfSnoc(cfg, Meaning(init), e.value);
      } else {
        assert Meaning(init) + [] == Meaning(init) && MappedOf(cfg, Meaning(init)) + [] == MappedOf(cfg, Meaning(init));
      }
      TableEventsConcat(v.sc, MappedOf(cfg, Meaning(init)), if e.Some? then Taken(cfg, e.value) else [], v.table);
      TakenIsShare(v, cfg, e);
    }
  }

  lemma NothingShared(v: View)
    ensures TableEvents(v.sc, [], v.table) == []
  {
  }

  /** The events of one table, seen from the log and from the messages. */
  lemma {:induction false} LogShare(v: View, cfg: Config, streams: seq<seq<Sent>>)
    requires v.Ok() && cfg.schema == v.sc
    ensures TableEvents(v.sc, MeaningLog(cfg, streams), v.table) == Share(v, MadeByAll(streams))
  {
    hide View.Ok, TableEvents, Share, MappedOf, Meaning, MadeBy;
    if streams == [] {
      NothingShared(v);
      NoShare(v);
    } else {
      var init, last := streams[..|streams| - 1], streams[|streams| - 1];
      LogShare(v, cfg, init);
      StreamShare(v, cfg, last);
      TableEventsConcat(v.sc, MeaningLog(cfg, init), MappedOf(cfg, Meaning(last)), v.table);
      ShareConcat(v, MadeByAll(init), MadeBy(last));
    }
  }

  lemma NoShare(v: View)
    ensures Share(v, []) == []
  {
  }

  /** The table against the source, as far as the sessions processed their messages. */
  lemma {:induction false} DecodedMirrorsSource(st: Settings, v: View, run: seq<World>, i: nat,
                                                streams: seq<seq<Sent>>, base: Db, m: Snapshot) returns (n: nat)
    requires st.Ok() && IsRun(st, run) && i < |run| && Settled(run[i]) && Decodes(run[i].sessions, streams)
    requires v.Ok() && v.sc == st.sink.schema && AllFaithful(v.sc, run[i].sink.cycles, v.table)
    requires SnapshotOk(v, m) && Mirrors(v.pk, At(base, v.sc.tables[v.table].current), m)
    requires AllowedAll(v, m, MadeByAll(streams)) && NothingBreaks(v, m, MadeByAll(streams))
    ensures AllLegal(StateOps(run[i].sink)) && n <= |MadeByAll(streams)|
    ensures Mirrors(v.pk, At(Run(base, StateOps(run[i].sink)), v.sc.tables[v.table].current),
                    After(v, m, MadeByAll(streams)[..n]))
    ensures Share(v, MadeByAll(streams))
         == Share(v, MadeByAll(streams)[..n]) + TableEvents(v.sc, run[i].sink.buffer, v.table)
    ensures run[i].sink.buffer == [] ==> n == |MadeByAll(streams)|
  {
    assert v.sc.Valid() && v.table in v.sc.tables;
    hide IsRun, MeaningLog, Decodes, AllFaithful, Mirrors, Schema.Valid, View.Ok, AllowedAll, NothingBreaks, SnapshotOk,
      ValidCycles, Run, AllLegal, AllMapped, TableEvents, CyclesOps, After, RunTable, OpsOn, Share, MadeByAll, LogOf;
    var made, s, name := MadeByAll(streams), run[i].sink, v.sc.tables[v.table].current;
    SettledState(st, run, i, streams);
    LogShare(v, st.sink, streams);
    TableEventsConcat(v.sc, LogOf(s.cycles), s.buffer, v.table);
    NothingShared(v);
    var confirmed := TableEvents(v.sc, LogOf(s.cycles), v.table);
    n := ShareCut(v, made, |confirmed|);
    assert Share(v, made[..n]) == confirmed;
    AllowedPrefix(v, m, made, n);
    NothingBreaksPrefix(v, m, made, n);
    RunAt(base, CyclesOps(s.cycles), name);
    RunMirrorsSource(v, s.cycles, At(base, name), m, made[..n]);
  }

  /**
   End to end against the source. If no session dropped a message and none of them breaks the
   mirror, then between flushes the current table holds exactly the rows that the source held
   after some first messages, and the buffer is what the rest have changed; with an empty buffer
   it holds exactly what the source holds.
   */
  lemma {:induction false} WalMirrorsSource(st: Settings, v: View, run: seq<World>, i: nat, streams: seq<seq<Sent>>,
                                            base: Db, m: Snapshot) returns (n: nat)
    requires st.Ok() && IsRun(st, run) && i < |run| && Settled(run[i])
    requires Carries(run[i].sessions, streams) && NothingLost(run[i].sessions)
    requires v.Ok() && v.sc == st.sink.schema && AllFaithful(v.sc, run[i].sink.cycles, v.table)
    requires SnapshotOk(v, m) && Mirrors(v.pk, At(base, v.sc.tables[v.table].current), m)
    requires AllowedAll(v, m, MadeByAll(streams)) && NothingBreaks(v, m, MadeByAll(streams))
    ensures AllLegal(StateOps(run[i].sink)) && n <= |MadeByAll(streams)|
    ensures Mirrors(v.pk, At(Run(base, StateOps(run[i].sink)), v.sc.tables[v.table].current),
                    After(v, m, MadeByAll(streams)[..n]))
    ensures Share(v, MadeByAll(streams))
         == Share(v, MadeByAll(streams)[..n]) + TableEvents(v.sc, run[i].sink.buffer, v.table)
    ensures run[i].sink.buffer == [] ==> n == |MadeByAll(streams)|
  {
    assert v.table in v.sc.tables;
    hide *;
    WhatWasDecoded(st, run, i, streams);
    n := DecodedMirrorsSource(st, v, run, i, streams, base, m);
  }

  /** The history, as far as the sessions processed their messages. */
  lemma {:induction false} DecodedToHistory(st: Settings, cols: set<string>, run: seq<World>, i: nat,
                                            streams: seq<seq<Sent>>, base: Db, table: string, picked: Table)
    requires st.Ok() && IsRun(st, run) && i < |run| && Settled(run[i]) && Decodes(run[i].sessions, streams)
    requires table in st.sink.schema.tables && At(base, st.sink.schema.tables[table].history) == []
    requires SameColumns(cols, HistoryDicts(TableEvents(st.sink.schema, LogOf(run[i].sink.cycles), table)))
    requires AllLegal(StateOps(run[i].sink))
    requires IsPick(LSN, At(Run(base, StateOps(run[i].sink)), st.sink.schema.tables[table].history), picked)
    ensures LogOf(run[i].sink.cycles) + run[i].sink.buffer == MeaningLog(st.sink, streams)
    ensures SameRows(picked, Rows(HistoryDicts(TableEvents(st.sink.schema, LogOf(run[i].sink.cycles), table))))
       <==> LsnsDistinct(TableEvents(st.sink.schema, LogOf(run[i].sink.cycles), table))
  {
    hide IsRun, MeaningLog, Decodes, Schema.Valid, LsnsDistinct, SameColumns, IsPick, ValidCycles, Run, AllLegal,
      AllMapped,
      TableEvents, CyclesOps, HistoryDicts, RunTable, OpsOn, Rows, SameRows, LogOf;
    SettledState(st, run, i, streams);
    RunAt(base, CyclesOps(run[i].sink.cycles), st.sink.schema.tables[table].history);
    DedupByLsnRecoversLog(st.sink.schema, cols, run[i].sink.cycles, table, picked);
  }

  /**
   And for the history. If no session dropped a message, deduplicating by LSN what has been
   appended to an empty history table gives exactly the history row of each event of the WAL, up
   to those still in the buffer, if and only if their LSNs are distinct.
   */
  lemma {:induction false} WalToHistory(st: Settings, cols: set<string>, run: seq<World>, i: nat,
                                        streams: seq<seq<Sent>>, base: Db, table: string, picked: Table)
    requires st.Ok() && IsRun(st, run) && i < |run| && Settled(run[i])
    requires Carries(run[i].sessions, streams) && NothingLost(run[i].sessions)
    requires table in st.sink.schema.tables && At(base, st.sink.schema.tables[table].history) == []
    requires SameColumns(cols, HistoryDicts(TableEvents(st.sink.schema, LogOf(run[i].sink.cycles), table)))
    requires AllLegal(StateOps(run[i].sink))
    requires IsPick(LSN, At(Run(base, StateOps(run[i].sink)), st.sink.schema.tables[table].history), picked)
    ensures LogOf(run[i].sink.cycles) + run[i].sink.buffer == MeaningLog(st.sink, streams)
    ensures SameRows(picked, Rows(HistoryDicts(TableEvents(st.sink.schema, LogOf(run[i].sink.cycles), table))))
       <==> LsnsDistinct(TableEvents(st.sink.schema, LogOf(run[i].sink.cycles), table))
  {
    hide *;
    WhatWasDecoded(st, run, i, streams);
    DecodedToHistory(st, cols, run, i, streams, base, table, picked);
  }
}
