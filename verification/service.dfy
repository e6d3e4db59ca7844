/**
 The service loop over the real parser and sink objects. Every execution of it is a run of the
 state machine in `Pipeline`, so what `Runs` proves of runs holds of the service.
 */
module Service {
  import opened Values
  import Lsn
  import opened Parser
  import opened Decoding
  import opened Stream
  import opened Tables
  import Statements
  import opened Sink
  import opened Warehousing
  import opened Pipeline
  import opened Runs

  /** A run of the machine that has reached `w`. */
  ghost predicate Reaches(st: Settings, trace: seq<World>, w: World) {
    IsRun(st, trace) && trace[|trace| - 1] == w
  }

  lemma RunExtends(st: Settings, trace: seq<World>, v: World, w: World)
    requires Reaches(st, trace, v) && Next(st, v, w)
    ensures Reaches(st, trace + [w], w)
  {
    hide Next;
    var more := trace + [w];
    forall i | 0 <= i < |more| - 1 ensures Next(st, more[i], more[i + 1]) {
      if i < |trace| - 1 {
        assert Next(st, trace[i], trace[i + 1]);
      }
    }
  }

  /** The same sessions and the same polls, but for the last poll. */
  predicate SameBefore(w: World, w': World) {
    && |w'.sessions| == |w.sessions| > 0 && w'.sessions[..|w'.sessions| - 1] == w.sessions[..|w.sessions| - 1]
    && LastSession(w) != [] && |LastSession(w')| == |LastSession(w)|
    && LastSession(w')[..|LastSession(w')| - 1] == LastSession(w)[..|LastSession(w)| - 1]
    && w'.attempt == w.attempt
  }

  /** The machine's state after the next message, and how the loop goes on. */
  ghost predicate MessageLeads(st: Settings, w: World, sink: SinkState, w': World, raised: bool) {
    && MorePending(w)
    && Next(st, w, w')
    && w'.sink == sink && w'.shutdown == w.shutdown && w'.attempt == w.attempt && w'.parser == NextStep(w).state
    && SameBefore(w, w')
    && ThisPoll(w').taken == ThisPoll(w).taken && ThisPoll(w').done == ThisPoll(w).done + 1
    && (if raised then w'.phase.Idle? && (ThisPoll(w').exit.ByPublish? || ThisPoll(w').exit.ByParse?) else
          && w'.phase.Draining? && InPoll(w')
          && ThisPoll(w').exit == ThisPoll(w).exit)
  }

  lemma LeadsWithin(st: Settings, w: World, sink: SinkState, w': World, raised: bool)
    requires InPoll(w) && LastSession(w) != [] && MessageLeads(st, w, sink, w', raised)
    ensures SameBefore(w, w') && ThisPoll(w').taken == ThisPoll(w).taken
    ensures 0 < ThisPoll(w').done <= |ThisPoll(w).taken|
    ensures raised ==> w'.phase.Idle? && (ThisPoll(w').exit.ByPublish? || ThisPoll(w').exit.ByParse?)
    ensures !raised ==> InPoll(w') && LastSession(w') != []
    ensures !raised ==> ThisPoll(w') == ThisPoll(w).(done := ThisPoll(w).done + 1)
  {
  }

  lemma ParseLeads(st: Settings, w: World)
    requires MorePending(w) && NextReply(w).Uncaught?
    ensures MessageLeads(st, w, w.sink, Failed(st, Advanced(w, ByParse)), true)
  {
    hide NextStep, Backoff;
    assert ParsingRaises(st, w, Failed(st, Advanced(w, ByParse)));
  }

  lemma SkipLeads(st: Settings, w: World)
    requires MorePending(w) && ThisPoll(w).exit.Running?
    requires NextReply(w).Nothing? || NextReply(w).Caught?
             || (NextReply(w).Got? && !IsMapped(st.sink, NextReply(w).event))
    ensures MessageLeads(st, w, w.sink, Advanced(w, Running), false)
  {
    hide NextStep;
    assert SkipsMessage(st, w, Advanced(w, Running));
  }

  lemma PublishLeads(st: Settings, w: World, sink: SinkState)
    requires MorePending(w) && ThisPoll(w).exit.Running? && NextReply(w).Got? && IsMapped(st.sink, NextReply(w).event)
    requires Published(st.sink, w.sink, NextReply(w).event, sink)
    ensures MessageLeads(st, w, sink, Advanced(w, Running).(sink := sink), false)
  {
    hide NextStep, Published;
    assert PublishesMessage(st, w, Advanced(w, Running).(sink := sink));
  }

  lemma RaiseLeads(st: Settings, w: World, sink: SinkState)
    requires MorePending(w) && NextReply(w).Got? && PublishRaised(st.sink, w.sink, NextReply(w).event, sink)
    ensures MessageLeads(st, w, sink, Failed(st, Advanced(w, ByPublish).(sink := sink)), true)
  {
    hide NextStep, PublishRaised, Backoff;
    assert PublishingRaises(st, w, Failed(st, Advanced(w, ByPublish).(sink := sink)));
  }

  /** The state after a flush between polls. */
  ghost function AfterFlush(st: Settings, w: World, sink: SinkState, raised: bool): World {
    if raised then Failed(st, w.(sink := sink))
    else if w.shutdown then w.(phase := Idle, sink := sink)
    else w.(sink := sink)
  }

  lemma FlushLeads(st: Settings, w: World, sink: SinkState, raised: bool)
    requires w.phase.Polling? && if raised then GaveUp(st.sink, w.sink, sink) else Flushed(st.sink, w.sink, sink)
    ensures Next(st, w, AfterFlush(st, w, sink, raised))
  {
    hide Flushed, GaveUp, Backoff;
    var w' := AfterFlush(st, w, sink, raised);
    assert PollsNothing(st, w, w') || EmptyPollGivesUp(st, w, w') || LeavesSession(st, w, w')
           || LeavingGivesUp(st, w, w');
  }

  /** The state once a poll has taken messages from the slot. */
  function Opened(w: World, changes: seq<Message>): World
    requires w.sessions != []
  {
    SetLastSession(w, LastSession(w) + [Poll(changes, 0, Running)]).(phase := Draining)
  }

  lemma PollLeads(st: Settings, w: World, changes: seq<Message>)
    requires w.phase.Polling? && !w.shutdown && w.sessions != [] && changes != []
    ensures Next(st, w, Opened(w, changes)) && InPoll(Opened(w, changes))
    ensures ThisPoll(Opened(w, changes)) == Poll(changes, 0, Running)
    ensures Opened(w, changes).parser == w.parser && Opened(w, changes).sink == w.sink
    ensures Opened(w, changes).shutdown == w.shutdown && Opened(w, changes).attempt == w.attempt
    ensures Opened(w, changes).phase.Draining?
  {
    assert Polls(w, Opened(w, changes), changes);
  }

  function PolledMessages(rows: seq<(nat, Bytes)>): seq<Message> {
    seq(|rows|, i requires 0 <= i < |rows| => Message(rows[i].0, rows[i].1))
  }

  /** The messages of the rows that a poll fetched; an LSN that cannot be read counts as 0. */
  function RowMessages(rows: seq<(Lsn.LsnCell, Bytes)>): seq<Message> {
    seq(|rows|, i requires 0 <= i < |rows| =>
      Message(if Lsn.CellValue(rows[i].0).Some? then Lsn.CellValue(rows[i].0).value else 0, rows[i].1))
  }

  /** The state after a poll that failed, whether or not the slot has forgotten what it was to return. */
  ghost function AfterFailedPoll(st: Settings, w: World, lost: seq<Message>): World
    requires w.sessions != []
  {
    if lost == [] then Failed(st, w) else Failed(st, SetLastSession(w, LastSession(w) + [Poll(lost, 0, ByPoll)]))
  }

  lemma FailedPollLeads(st: Settings, w: World, lost: seq<Message>)
    requires w.phase.Polling? && !w.shutdown && w.sessions != []
    ensures var w' := AfterFailedPoll(st, w, lost);
            && Next(st, w, w') && w'.phase.Idle? && w'.sink == w.sink && w'.shutdown == w.shutdown
            && w'.attempt == w.attempt
  {
    hide Backoff;
    var w' := AfterFailedPoll(st, w, lost);
    assert PollFails(st, w, w') || PollLoses(st, w, w', lost);
  }

  /** The state once the loop over a poll has ended without raising. */
  function Closed(w: World, exit: Exit): World
    requires InPoll(w)
  {
    SetPoll(w, ThisPoll(w).(exit := exit)).(phase := Polling)
  }

  /** The state after an attempt to connect. */
  ghost function Dialled(st: Settings, w: World, opens: bool): World {
    if opens then NewSession(w).(phase := Polling, attempt := 0, delays := []) else Failed(st, NewSession(w))
  }

  lemma ConnectLeads(st: Settings, w: World, opens: bool)
    requires w.phase.Idle? && !w.shutdown
    ensures var w' := Dialled(st, w, opens);
            && Next(st, w, w') && w'.parser == FRESH && w'.sink == w.sink && w'.shutdown == w.shutdown
            && |w'.sessions| == |w.sessions| + 1
            && w'.attempt == (if opens then 0 else w.attempt + 1) && w'.phase == (if opens then Polling else Idle)
  {
    hide Backoff;
    assert Connects(w, Dialled(st, w, opens)) || ConnectFails(st, w, Dialled(st, w, opens));
  }

  lemma OtherLeads(st: Settings, w: World, sink: SinkState)
    ensures Next(st, w, w.(shutdown := true))
    ensures w.phase.Polling? && !w.shutdown ==> Next(st, w, Failed(st, w))
    ensures w.phase.Idle? && w.shutdown && (Flushed(st.sink, w.sink, sink) || GaveUp(st.sink, w.sink, sink)) ==>
              Next(st, w, w.(phase := Stopped, sink := sink))
  {
    hide Flushed, GaveUp, Backoff;
    assert Signalled(w, w.(shutdown := true));
  }

  /** The last poll took these messages, and its loop ran to its end or was left by shutdown. */
  predicate PollEnded(w: World, changes: seq<Message>) {
    && LastSession(w) != [] && ThisPoll(w).taken == changes && ThisPoll(w).done <= |changes|
    && if ThisPoll(w).done == |changes| then ThisPoll(w).exit.Completed? else ThisPoll(w).exit.ByShutdown? && w.shutdown
  }

  /** What became of the poll being drained in `w`: ended as above, or left by a publish or the parser that raised. */
  predicate Drained(w: World, changes: seq<Message>, raised: bool, w': World) {
    && SameBefore(w, w')
    && if !raised then w'.phase.Polling? && PollEnded(w', changes)
       else
         && w'.phase.Idle? && ThisPoll(w').taken == changes && 0 < ThisPoll(w').done <= |changes|
         && (ThisPoll(w').exit.ByPublish? || ThisPoll(w').exit.ByParse?)
  }

  /** A flush between polls: confirmed and gone on, or given up and backed off. */
  ghost predicate FlushDone(st: Settings, w: World, raised: bool, w': World) {
    && w' == AfterFlush(st, w, w'.sink, raised)
    && if raised then GaveUp(st.sink, w.sink, w'.sink) else Flushed(st.sink, w.sink, w'.sink)
  }

  /** How the slot answers a poll: with an exception, the slot having forgotten `lost` or nothing, or with rows. */
  datatype Answer = Fails(lost: seq<Message>) | Rows(rows: seq<(Lsn.LsnCell, Bytes)>)

  ghost predicate Unreadable(rows: seq<(Lsn.LsnCell, Bytes)>) {
    exists i :: 0 <= i < |rows| && Lsn.Malformed(rows[i].0)
  }

  /**
   What one poll makes of its answer. It is given up if the poll failed or an LSN cannot be read; an
   empty answer is a flush; any other is opened as a poll of exactly its messages, and drained.
   */
  ghost predicate PollDone(st: Settings, w: World, answer: Answer, raised: bool, w': World)
    requires w.sessions != []
  {
    match answer
    case Fails(lost) => raised && w' == AfterFailedPoll(st, w, lost)
    case Rows(rows) =>
      if Unreadable(rows) then raised && w' == AfterFailedPoll(st, w, RowMessages(rows))
      else if rows == [] then FlushDone(st, w, raised, w')
      else Drained(Opened(w, RowMessages(rows)), RowMessages(rows), raised, w')
  }

  /** The messages of readable rows have the LSNs that the cells stand for, and their payloads. */
  lemma RowMessagesMean(rows: seq<(Lsn.LsnCell, Bytes)>, i: nat, n: nat)
    requires i < |rows|
    ensures |RowMessages(rows)| == |rows| && RowMessages(rows)[i].payload == rows[i].1
    ensures Lsn.Means(rows[i].0, n) ==> RowMessages(rows)[i].lsn == n
  {
    hide Lsn.Means, Lsn.CellValue;
    Lsn.CellMeans(rows[i].0);
  }

  /** One poll of a session: before it, its answer, whether it raised, after it. */
  datatype Polled = Polled(before: World, answer: Answer, raised: bool, after: World)

  ghost predicate AllPolled(st: Settings, w: World, polls: seq<Polled>) {
    forall i :: 0 <= i < |polls| ==>
      && polls[i].before == LastOf(w, polls[..i]) && !polls[i].before.shutdown && polls[i].before.sessions != []
      && PollDone(st, polls[i].before, polls[i].answer, polls[i].raised, polls[i].after)
      && (polls[i].raised ==> i == |polls| - 1)
  }

  function LastOf(w: World, polls: seq<Polled>): World { if polls == [] then w else polls[|polls| - 1].after }

  /** A session from `w`: its polls, and then the flush that leaves it once a signal has arrived. */
  ghost predicate SessionDone(st: Settings, w: World, polls: seq<Polled>, rounds: nat, raised: bool, w': World) {
    && |polls| <= rounds && AllPolled(st, w, polls)
    && var last := LastOf(w, polls);
       if polls != [] && polls[|polls| - 1].raised then raised && w' == last
       else if !w'.shutdown then !raised && |polls| == rounds && w' == last
       else FlushDone(st, last.(shutdown := true), raised, w')
  }

  lemma NoneMade(st: Settings, w: World)
    ensures AllPolled(st, w, []) && LastOf(w, []) == w
  {
  }

  lemma OnePollMore(st: Settings, w: World, polls: seq<Polled>, p: Polled)
    requires AllPolled(st, w, polls) && (polls != [] ==> !polls[|polls| - 1].raised)
    requires p.before == LastOf(w, polls) && !p.before.shutdown && p.before.sessions != []
    requires PollDone(st, p.before, p.answer, p.raised, p.after)
    ensures AllPolled(st, w, polls + [p]) && LastOf(w, polls + [p]) == p.after
  {
    hide PollDone;
    var all := polls + [p];
    forall i | 0 <= i < |all| ensures all[..i] == if i < |polls| then polls[..i] else polls {
    }
  }

  lemma CloseLeads(st: Settings, w: World, exit: Exit)
    requires InPoll(w)
    requires if ThisPoll(w).done == |ThisPoll(w).taken| then exit.Completed? else exit.ByShutdown? && w.shutdown
    ensures Next(st, w, Closed(w, exit)) && PollEnded(Closed(w, exit), ThisPoll(w).taken)
    ensures Closed(w, exit).parser == w.parser && Closed(w, exit).sink == w.sink && Closed(w, exit).sessions != []
    ensures Closed(w, exit).shutdown == w.shutdown && Closed(w, exit).attempt == w.attempt
    ensures Closed(w, exit).phase.Polling? && SameBefore(w, Closed(w, exit))
  {
  }

  class CdcService {
    const st: Settings
    const sink: SnowflakeSink
    var parser: PgOutputParser
    var shutdown: bool
    var attempt: nat
    ghost var world: World
    ghost var trace: seq<World>

    ghost predicate Valid()
      reads this, sink, sink.warehouse, parser
    {
      && st.Ok() && sink.cfg == st.sink && sink.Valid()
      && Reaches(st, trace, world)
      && world.sink == sink.state && world.shutdown == shutdown && world.attempt == attempt
      && (world.phase.Polling? || world.phase.Draining? ==> world.parser == parser.State())
    }

    constructor (st: Settings, sink: SnowflakeSink)
      requires st.Ok() && sink.cfg == st.sink && sink.Valid() && sink.state == NEW_SINK
      ensures Valid() && this.st == st && this.sink == sink && fresh(parser) && world == START && trace == [START]
    {
      this.st := st;
      this.sink := sink;
      this.parser := new PgOutputParser();
      this.shutdown := false;
      this.attempt := 0;
      this.world := START;
      this.trace := [START];
    }

    /** Records that the machine has made a step. */
    ghost method Record(w: World)
      requires Reaches(st, trace, world) && Next(st, world, w)
      modifies `world, `trace
      ensures world == w && trace == old(trace) + [w] && Reaches(st, trace, world)
    {
      RunExtends(st, trace, world, w);
      world := w;
      trace := trace + [w];
    }

    /** A signal may arrive at any time. */
    method MaybeSignal()
      requires Valid()
      modifies `shutdown, `world, `trace
      ensures Valid() && world == old(world).(shutdown := shutdown) && (old(shutdown) ==> shutdown)
      ensures old(trace) <= trace
    {
      hide Next, Reaches;
      var arrives: bool := *;
      if arrives {
        shutdown := true;
        OtherLeads(st, world, world.sink);
        Record(world.(shutdown := true));
      }
    }

    /** The body of the loop over the messages of one poll; true if it raised. */
    method HandleMessage(m: Message) returns (raised: bool)
      requires Valid() && world.phase.Draining? && MorePending(world) && ThisPoll(world).exit.Running?
      requires m == ThisPoll(world).taken[ThisPoll(world).done]
      modifies this, sink, sink.warehouse, parser
      ensures Valid() && parser == old(parser) && shutdown == old(shutdown)
      ensures MessageLeads(st, old(world), sink.state, world, raised)
      ensures trace == old(trace) + [world] && sink.base == old(sink.base)
      ensures raised && !NextReply(old(world)).Uncaught? ==>
                sink.warehouse.failures == old(sink.warehouse.failures) + st.sink.maxRetries
    {
      hide Next, Reaches, Published, PublishRaised, SinkOk, Ran, Advanced, MessageLeads;
      ghost var w := world;
      var reply := parser.ParseMessage(m.payload, m.lsn);
      assert reply == NextReply(w) && parser.State() == NextStep(w).state;
      ghost var w': World;
      if reply.Uncaught? {
        ParseLeads(st, w);
        w', raised := Failed(st, Advanced(w, ByParse)), true;
      } else if !reply.Got? || st.sink.schema.Normalize(reply.event.table) !in st.sink.schema.tables {
        SkipLeads(st, w);
        w', raised := Advanced(w, Running), false;
      } else {
        var clock: real, later: real := *, *;
        var r := sink.Publish(reply.event, clock, later);
        raised := r.Raised?;
        if raised {
          RaiseLeads(st, w, sink.state);
          w' := Failed(st, Advanced(w, ByPublish).(sink := sink.state));
        } else {
          PublishLeads(st, w, sink.state);
          w' := Advanced(w, Running).(sink := sink.state);
        }
      }
      LeadsOn(st, w, sink.state, w', raised);
      Record(w');
    }

    /** The end of that loop. */
    ghost method ClosePoll(exit: Exit)
      requires Valid() && InPoll(world)
      requires if ThisPoll(world).done == |ThisPoll(world).taken| then exit.Completed?
               else exit.ByShutdown? && world.shutdown
      modifies `world, `trace
      ensures Valid() && trace == old(trace) + [world] && world.phase.Polling? && world.sessions != []
      ensures PollEnded(world, old(ThisPoll(world).taken)) && SameBefore(old(world), world)
    {
      hide Next, Reaches, Closed, SinkOk, Ran, NextStep, PollEnded, Settings.Ok, SameBefore;
      CloseLeads(st, world, exit);
      Record(Closed(world, exit));
    }

    /** One turn of the loop over a poll: true first if it raised, and second if the flag ended the loop. */
    method NextMessage(changes: seq<Message>, i: nat) returns (raised: bool, left: bool)
      requires Valid() && world.phase.Draining? && InPoll(world) && LastSession(world) != []
      requires i < |changes| && ThisPoll(world) == Poll(changes, i, Running)
      modifies this, sink, sink.warehouse, parser
      ensures Valid() && parser == old(parser) && (old(shutdown) ==> shutdown)
      ensures old(trace) < trace && sink.base == old(sink.base)
      ensures raised || left ==> Drained(old(world), changes, raised, world)
      ensures left ==> !raised && world.sessions != []
      ensures raised ==> world.phase.Idle?
      ensures left ==> world.phase.Polling?
      ensures !raised && !left ==>
                && world.phase.Draining? && InPoll(world) && LastSession(world) != []
                && ThisPoll(world) == Poll(changes, i + 1, Running) && SameBefore(old(world), world)
    {
      hide Next, Reaches, SinkOk, Ran, PollEnded, Settings.Ok, MessageLeads, SameBefore;
      raised, left := false, false;
      MaybeSignal();
      SignalKeeps(old(world), world, shutdown);
      ghost var w := world;
      if shutdown {
        ClosePoll(ByShutdown);
        left := true;
      } else {
        raised := HandleMessage(changes[i]);
        LeadsWithin(st, w, sink.state, world, raised);
      }
      SameBeforeBoth(old(world), w, world);
    }

    /** The loop over the messages of one poll; true if it raised. */
    method DrainPoll(changes: seq<Message>) returns (raised: bool)
      requires Valid() && world.phase.Draining? && InPoll(world) && ThisPoll(world) == Poll(changes, 0, Running)
      modifies this, sink, sink.warehouse, parser
      ensures Valid() && parser == old(parser) && (old(shutdown) ==> shutdown)
      ensures old(trace) < trace && sink.base == old(sink.base)
      ensures if raised then world.phase.Idle? else world.phase.Polling? && world.sessions != []
      ensures Drained(old(world), changes, raised, world)
    {
      hide Next, Reaches, SinkOk, Ran, PollEnded, Settings.Ok, SameBefore, Drained;
      SameBeforeItself(world);
      for i := 0 to |changes|
        invariant Valid() && parser == old(parser) && (old(shutdown) ==> shutdown)
        invariant old(trace) <= trace && sink.base == old(sink.base)
        invariant world.phase.Draining? && InPoll(world) && LastSession(world) != []
        invariant ThisPoll(world) == Poll(changes, i, Running) && SameBefore(old(world), world)
      {
        ghost var w := world;
        var left;
        raised, left := NextMessage(changes, i);
        if raised || left {
          DrainedSince(old(world), w, changes, raised, world);
          return;
        }
        SameBeforeBoth(old(world), w, world);
      }
      ghost var w := world;
      ClosePoll(Completed);
      EndedIsDrained(old(world), w, changes, world);
      raised := false;
    }

    /** Up to `rounds` polls of one connection, and the flush that leaves it; true if it raised. */
    method Session(rounds: nat) returns (raised: bool, ghost polls: seq<Polled>)
      requires Valid() && world.phase.Polling? && world.sessions != []
      modifies this, sink, sink.warehouse, parser
      ensures Valid() && parser == old(parser) && (old(shutdown) ==> shutdown)
      ensures old(trace) <= trace && sink.base == old(sink.base)
      ensures if raised || shutdown then world.phase.Idle? else world.phase.Polling?
      ensures |world.sessions| == |old(world.sessions)|
      ensures SessionDone(st, old(world), polls, rounds, raised, world)
    {
      hide Next, Reaches, SinkOk, Ran, InPoll, Opened, PollDone, AllPolled, FlushDone;
      polls := [];
      NoneMade(st, world);
      for round := 0 to rounds
        invariant Valid() && parser == old(parser) && (old(shutdown) ==> shutdown)
        invariant old(trace) <= trace && sink.base == old(sink.base)
        invariant world.phase.Polling? && world.sessions != [] && |world.sessions| == |old(world.sessions)|
        invariant |polls| == round && AllPolled(st, old(world), polls) && world == LastOf(old(world), polls)
        invariant polls != [] ==> !polls[|polls| - 1].raised
      {
        MaybeSignal();
        if shutdown {
          break;
        }
        ghost var before, answer := world, Fails([]);
        raised, answer := PollOnce();
        OnePollMore(st, old(world), polls, Polled(before, answer, raised, world));
        polls := polls + [Polled(before, answer, raised, world)];
        if raised {
          return;
        }
      }
      raised := false;
      if shutdown {
        raised := FlushBetweenPolls();
      }
    }

    /** One poll and what comes of it; true if it raised. */
    method PollOnce() returns (raised: bool, ghost answer: Answer)
      requires Valid() && world.phase.Polling? && world.sessions != [] && !shutdown
      modifies this, sink, sink.warehouse, parser
      ensures Valid() && parser == old(parser)
      ensures old(trace) < trace && sink.base == old(sink.base)
      ensures if raised then world.phase.Idle? else world.phase.Polling? && world.sessions != []
      ensures |world.sessions| == |old(world.sessions)|
      ensures PollDone(st, old(world), answer, raised, world)
    {
      hide Next, Reaches, SinkOk, Ran, InPoll, Opened, PollEnded, Lsn.Malformed, Lsn.Means, Lsn.CellValue;
      var fails: bool := *;
      if fails {
        ghost var lost: seq<Message> := *;
        FailedPollLeads(st, world, lost);
        Record(AfterFailedPoll(st, world, lost));
        return true, Fails(lost);
      }
      var rows: seq<(Lsn.LsnCell, Bytes)> := *;
      answer := Rows(rows);
      var polled := Lsn.PollChanges(rows);
      if polled.Raised? {
        FailedPollLeads(st, world, RowMessages(rows));
        Record(AfterFailedPoll(st, world, RowMessages(rows)));
        return true, answer;
      }
      var changes := PolledMessages(polled.value);
      PolledAreRows(rows, polled.value);
      if changes == [] {
        raised := FlushBetweenPolls();
      } else {
        OpenedFrame(world, changes);
        PollLeads(st, world, changes);
        Record(Opened(world, changes));
        raised := DrainPoll(changes);
      }
    }

    method FlushBetweenPolls() returns (raised: bool)
      requires Valid() && world.phase.Polling?
      modifies this, sink, sink.warehouse
      ensures Valid() && parser == old(parser) && shutdown == old(shutdown)
      ensures trace == old(trace) + [world] && sink.base == old(sink.base)
      ensures FlushDone(st, old(world), raised, world) && world.sessions == old(world.sessions)
      ensures raised ==> sink.warehouse.failures == old(sink.warehouse.failures) + st.sink.maxRetries
      ensures if raised || shutdown then world.phase.Idle? else world.phase.Polling?
    {
      hide Next, Reaches, Flushed, GaveUp, SinkOk, Ran, Backoff;
      var clock: real := *;
      ghost var sleeps: seq<real>;
      var r;
      r, sleeps := sink.Flush(clock);
      raised := r.Raised?;
      FlushLeads(st, world, sink.state, raised);
      Record(AfterFlush(st, world, sink.state, raised));
    }

    /** The outer loop: up to `connects` connections of up to `rounds` polls each. */
    method Run(connects: nat, rounds: nat)
      requires Valid() && world.phase.Idle?
      modifies this, sink, sink.warehouse, parser
      ensures Valid() && (old(shutdown) ==> shutdown)
      ensures old(trace) <= trace && sink.base == old(sink.base)
      ensures shutdown ==> world.phase.Stopped?
      ensures !shutdown ==>
                world.phase.Polling? || (world.phase.Idle? && |world.sessions| == |old(world.sessions)| + connects)
    {
      hide Next, Reaches, Flushed, GaveUp, SinkOk, Ran, Dialled;
      for c := 0 to connects
        invariant Valid() && world.phase.Idle? && (old(shutdown) ==> shutdown)
        invariant old(trace) <= trace && sink.base == old(sink.base)
        invariant parser == old(parser) || fresh(parser)
        invariant |world.sessions| == |old(world.sessions)| + c
      {
        MaybeSignal();
        if shutdown {
          break;
        }
        var raised;
        ghost var opens, polls := false, [];
        raised, opens, polls := Connection(rounds);
        if !raised && !shutdown {
          return;
        }
      }
      if shutdown {
        var clock: real := *;
        ghost var sleeps: seq<real>;
        var r;
        r, sleeps := sink.Flush(clock);
        OtherLeads(st, world, sink.state);
        Record(world.(phase := Stopped, sink := sink.state));
      }
    }

    /** A fresh parser, a connection that may not open, and its session; true if it raised. */
    method Connection(rounds: nat) returns (raised: bool, ghost opens: bool, ghost polls: seq<Polled>)
      requires Valid() && world.phase.Idle? && !shutdown
      modifies this, sink, sink.warehouse
      ensures Valid() && fresh(parser)
      ensures old(trace) < trace && sink.base == old(sink.base)
      ensures if raised || shutdown then world.phase.Idle? else world.phase.Polling?
      ensures |world.sessions| == |old(world.sessions)| + 1
      ensures var dialled := Dialled(st, old(world), opens);
              if opens then SessionDone(st, dialled, polls, rounds, raised, world) else raised && world == dialled
    {
      hide Next, Reaches, SinkOk, Ran, Dialled, SessionDone;
      attempt := attempt + 1;
      parser := new PgOutputParser();
      var answers: bool := *;
      opens, polls := answers, [];
      ConnectLeads(st, world, opens);
      Record(Dialled(st, world, opens));
      if !answers {
        return true, opens, polls;
      }
      attempt := 0;
      raised, polls := Session(rounds);
    }
  }

  lemma LeadsOn(st: Settings, w: World, sink: SinkState, w': World, raised: bool)
    requires MessageLeads(st, w, sink, w', raised)
    ensures Next(st, w, w') && w'.sink == sink && w'.shutdown == w.shutdown && w'.attempt == w.attempt
    ensures MorePending(w) && w'.parser == NextStep(w).state
  {
  }

  lemma SameBeforeItself(w: World)
    requires w.sessions != [] && LastSession(w) != []
    ensures SameBefore(w, w)
  {
  }

  lemma SameBeforeBoth(a: World, b: World, c: World)
    requires SameBefore(a, b) && SameBefore(b, c)
    ensures SameBefore(a, c)
  {
  }

  lemma DrainedSince(a: World, b: World, changes: seq<Message>, raised: bool, c: World)
    requires SameBefore(a, b) && Drained(b, changes, raised, c)
    ensures Drained(a, changes, raised, c)
  {
    SameBeforeBoth(a, b, c);
  }

  lemma EndedIsDrained(a: World, b: World, changes: seq<Message>, c: World)
    requires SameBefore(a, b) && SameBefore(b, c) && PollEnded(c, changes) && c.phase.Polling?
    ensures Drained(a, changes, false, c)
  {
    SameBeforeBoth(a, b, c);
  }

  lemma SignalKeeps(w: World, w': World, shutdown: bool)
    requires InPoll(w) && w' == w.(shutdown := shutdown)
    ensures SameBefore(w, w')
  {
  }

  /** A poll is opened behind those of its session. */
  lemma OpenedFrame(w: World, changes: seq<Message>)
    requires w.sessions != []
    ensures |Opened(w, changes).sessions| == |w.sessions|
  {
  }

  lemma PolledAreRows(rows: seq<(Lsn.LsnCell, Bytes)>, polled: seq<(nat, Bytes)>)
    requires |polled| == |rows|
    requires forall i :: 0 <= i < |rows| ==>
               Lsn.CellValue(rows[i].0).Some? && polled[i] == (Lsn.CellValue(rows[i].0).value, rows[i].1)
    ensures PolledMessages(polled) == RowMessages(rows) && |RowMessages(rows)| == |rows|
  {
    hide Lsn.CellValue;
  }

  /**
   A whole life of the service over a warehouse. What it does to the warehouse is what a run of the
   machine does, from the contents that it found; so every table that it found with one row per key
   has one row per key afterwards, whatever happened.
   */
  method Serve(st: Settings, warehouse: Warehouse, connects: nat, rounds: nat) returns (ghost run: seq<World>)
    requires st.Ok()
    modifies warehouse
    ensures IsRun(st, run)
    ensures Ran(old(warehouse.db), StateOps(run[|run| - 1].sink), warehouse.db)
    ensures var end := run[|run| - 1];
            end.phase.Stopped? || end.phase.Polling? || (end.phase.Idle? && |end.sessions| == connects)
    ensures forall table :: table in st.sink.schema.tables ==>
              var conf := st.sink.schema.tables[table];
              PkUnique(conf.pk, Statements.At(old(warehouse.db), conf.current)) ==>
                PkUnique(conf.pk, Statements.At(warehouse.db, conf.current))
  {
    hide Next, IsRun, SinkOk, PkUnique, Settings.Ok, StateOps;
    var sink := NewSink(st, warehouse);
    var service := new CdcService(st, sink);
    service.Run(connects, rounds);
    run := service.trace;
    forall table | table in st.sink.schema.tables
      ensures var conf := st.sink.schema.tables[table];
              PkUnique(conf.pk, Statements.At(old(warehouse.db), conf.current)) ==>
                PkUnique(conf.pk, Statements.At(warehouse.db, conf.current))
    {
      var conf := st.sink.schema.tables[table];
      if PkUnique(conf.pk, Statements.At(old(warehouse.db), conf.current)) {
        OneRowPerKey(st, run, |run| - 1, old(warehouse.db), table);
      }
    }
  }

  method NewSink(st: Settings, warehouse: Warehouse) returns (sink: SnowflakeSink)
    requires st.Ok()
    ensures fresh(sink) && sink.cfg == st.sink && sink.warehouse == warehouse && sink.Valid()
    ensures sink.state == NEW_SINK && sink.base == warehouse.db
  {
    var clock: real := *;
    sink := new SnowflakeSink(st.sink, warehouse, clock);
  }
}
