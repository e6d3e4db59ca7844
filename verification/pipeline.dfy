/**
 The service loop as a state machine: consume from the slot, decode, publish, flush, raise, back
 off, reconnect with a fresh parser but the same sink, shut down. One step for each thing that
 can happen; a run is any sequence of steps.
 */
module Pipeline {
  import opened Events
  import opened Parser
  import opened Stream
  import opened Sink

  /** How the loop over the messages of one poll ended. */
  datatype Exit = Running | Completed | ByShutdown | ByPublish | ByParse | ByPoll

  /** One consuming poll: what it took from the slot, and how many messages were processed. */
  datatype Poll = Poll(taken: seq<Message>, done: nat, exit: Exit)

  /** Not connected, connected between polls, inside a poll, or stopped. */
  datatype Phase = Idle | Polling | Draining | Stopped

  /** `delays` are the back-off sleeps since the last successful connect. */
  datatype World = World(
    phase: Phase,
    shutdown: bool,
    attempt: nat,
    delays: seq<real>,
    sessions: seq<seq<Poll>>,
    parser: ParserState,
    sink: SinkState)

  const START := World(Idle, false, 0, [], [], FRESH, NEW_SINK)

  datatype Settings = Settings(sink: Config, backoffBase: real, backoffMax: real) {
    ghost predicate Ok() { sink.Ok() && backoffBase >= 0.0 }
  }

  // ---- Back-off --------------------------------------------------------------------------------

  /** `min(base * 2 ** min(attempt - 1, 6), max)`; after a failure inside a session `attempt` is 0. */
  function Backoff(st: Settings, attempt: nat): real {
    var n := if attempt <= 7 then attempt else 7;
    Min(Doubled(st.backoffBase, n) / 2.0, st.backoffMax)
  }

  lemma {:induction false} DoubledGrows(base: real, m: nat, n: nat)
    requires base >= 0.0 && m <= n
    ensures 0.0 <= Doubled(base, m) <= Doubled(base, n)
  {
    if n == 0 {
    } else {
      DoubledGrows(base, if m < n then m else n - 1, n - 1);
    }
  }

  lemma BackoffGrows(st: Settings, m: nat, n: nat)
    requires st.backoffBase >= 0.0 && m <= n
    ensures Backoff(st, m) <= Backoff(st, n) <= st.backoffMax
  {
    DoubledGrows(st.backoffBase, if m <= 7 then m else 7, if n <= 7 then n else 7);
  }

  /** From half the base the delay doubles up to the seventh attempt, and never exceeds the cap. */
  lemma {:induction false} BackoffDoubles(st: Settings, n: nat)
    requires st.backoffBase >= 0.0
    ensures Backoff(st, 0) == if st.backoffBase / 2.0 <= st.backoffMax then st.backoffBase / 2.0 else st.backoffMax
    ensures Backoff(st, 1) == if st.backoffBase <= st.backoffMax then st.backoffBase else st.backoffMax
    ensures n < 7 ==> Doubles(Backoff(st, n), Backoff(st, n + 1), st.backoffMax)
    ensures n >= 7 ==> Backoff(st, n + 1) == Backoff(st, n)
  {
    DoubledGrows(st.backoffBase, 0, n);
    assert Doubled(st.backoffBase, n + 1) == 2.0 * Doubled(st.backoffBase, n);
    assert Doubled(st.backoffBase, 1) == 2.0 * st.backoffBase;
  }

  // ---- The log of a run ----------------------------------------------------------------------------

  /** The messages of a session that reached the parser. */
  function Processed(polls: seq<Poll>): seq<Message> {
    if polls == [] then []
    else
      var p := polls[|polls| - 1];
      Processed(polls[..|polls| - 1]) + (if p.done <= |p.taken| then p.taken[..p.done] else p.taken)
  }

  /** The messages of a session that left the slot. */
  function Consumed(polls: seq<Poll>): seq<Message> {
    if polls == [] then [] else Consumed(polls[..|polls| - 1]) + polls[|polls| - 1].taken
  }

  /** The mapped events, as the sink takes them. */
  function MappedOf(cfg: Config, events: seq<ChangeEvent>): seq<ChangeEvent> {
    if events == [] then [] else MappedOf(cfg, events[..|events| - 1]) + Taken(cfg, events[|events| - 1])
  }

  /** All mapped events decoded so far, in WAL order. */
  function DecodedLog(cfg: Config, sessions: seq<seq<Poll>>): seq<ChangeEvent> {
    if sessions == [] then []
    else DecodedLog(cfg, sessions[..|sessions| - 1]) + MappedOf(cfg, Decoded(Processed(sessions[|sessions| - 1])))
  }

  // ---- Steps --------------------------------------------------------------------------------------------

  function NewSession(w: World): World {
    w.(attempt := w.attempt + 1, parser := FRESH, sessions := w.sessions + [[]])
  }

  function Failed(st: Settings, w: World): World {
    w.(phase := Idle, delays := w.delays + [Backoff(st, w.attempt)])
  }

  predicate Connects(w: World, w': World) {
    w.phase.Idle? && !w.shutdown && w' == NewSession(w).(phase := Polling, attempt := 0, delays := [])
  }

  predicate ConnectFails(st: Settings, w: World, w': World) {
    w.phase.Idle? && !w.shutdown && w' == Failed(st, NewSession(w))
  }

  function LastSession(w: World): seq<Poll> {
    if w.sessions == [] then [] else w.sessions[|w.sessions| - 1]
  }

  function SetLastSession(w: World, polls: seq<Poll>): World
    requires w.sessions != []
  {
    w.(sessions := w.sessions[..|w.sessions| - 1] + [polls])
  }

  /** `poll_changes` takes messages from the slot, which forgets them. */
  predicate Polls(w: World, w': World, taken: seq<Message>) {
    && w.phase.Polling? && !w.shutdown && w.sessions != [] && taken != []
    && w' == SetLastSession(w, LastSession(w) + [Poll(taken, 0, Running)]).(phase := Draining)
  }

  ghost predicate PollsNothing(st: Settings, w: World, w': World) {
    && w.phase.Polling? && !w.shutdown
    && Flushed(st.sink, w.sink, w'.sink) && w' == w.(sink := w'.sink)
  }

  ghost predicate EmptyPollGivesUp(st: Settings, w: World, w': World) {
    && w.phase.Polling? && !w.shutdown
    && GaveUp(st.sink, w.sink, w'.sink) && w' == Failed(st, w.(sink := w'.sink))
  }

  predicate PollFails(st: Settings, w: World, w': World) {
    w.phase.Polling? && !w.shutdown && w' == Failed(st, w)
  }

  /** The poll itself fails, but only after the slot has forgotten the messages. */
  predicate PollLoses(st: Settings, w: World, w': World, taken: seq<Message>) {
    && w.phase.Polling? && !w.shutdown && w.sessions != [] && taken != []
    && w' == Failed(st, SetLastSession(w, LastSession(w) + [Poll(taken, 0, ByPoll)]))
  }

  predicate InPoll(w: World) {
    && w.phase.Draining? && w.sessions != [] && LastSession(w) != []
    && ThisPoll(w).done <= |ThisPoll(w).taken|
  }

  function ThisPoll(w: World): Poll
    requires LastSession(w) != []
  {
    LastSession(w)[|LastSession(w)| - 1]
  }

  function SetPoll(w: World, p: Poll): World
    requires w.sessions != [] && LastSession(w) != []
  {
    SetLastSession(w, LastSession(w)[..|LastSession(w)| - 1] + [p])
  }

  predicate MorePending(w: World) { InPoll(w) && !w.shutdown && ThisPoll(w).done < |ThisPoll(w).taken| }

  /** What the parser makes of the next message. */
  function NextStep(w: World): Parser.Step
    requires MorePending(w)
  {
    var m := ThisPoll(w).taken[ThisPoll(w).done];
    Parse(w.parser, m.payload, m.lsn)
  }

  /** The next message has been handed to the parser. */
  function Advanced(w: World, exit: Exit): World
    requires MorePending(w)
  {
    SetPoll(w, ThisPoll(w).(done := ThisPoll(w).done + 1, exit := exit)).(parser := NextStep(w).state)
  }

  function NextReply(w: World): Reply
    requires MorePending(w)
  {
    NextStep(w).reply
  }

  predicate SkipsMessage(st: Settings, w: World, w': World) {
    && MorePending(w)
    && (NextReply(w).Nothing? || NextReply(w).Caught? || (NextReply(w).Got? && !IsMapped(st.sink, NextReply(w).event)))
    && w' == Advanced(w, Running)
  }

  ghost predicate PublishesMessage(st: Settings, w: World, w': World) {
    && MorePending(w) && NextReply(w).Got? && IsMapped(st.sink, NextReply(w).event)
    && Published(st.sink, w.sink, NextReply(w).event, w'.sink)
    && w' == Advanced(w, Running).(sink := w'.sink)
  }

  ghost predicate PublishingRaises(st: Settings, w: World, w': World) {
    && MorePending(w) && NextReply(w).Got?
    && PublishRaised(st.sink, w.sink, NextReply(w).event, w'.sink)
    && w' == Failed(st, Advanced(w, ByPublish).(sink := w'.sink))
  }

  predicate ParsingRaises(st: Settings, w: World, w': World) {
    && MorePending(w) && NextReply(w).Uncaught?
    && w' == Failed(st, Advanced(w, ByParse))
  }

  predicate FinishesPoll(w: World, w': World) {
    && InPoll(w) && ThisPoll(w).done == |ThisPoll(w).taken|
    && w' == SetPoll(w, ThisPoll(w).(exit := Completed)).(phase := Polling)
  }

  predicate BreaksPoll(w: World, w': World) {
    && InPoll(w) && w.shutdown && ThisPoll(w).done < |ThisPoll(w).taken|
    && w' == SetPoll(w, ThisPoll(w).(exit := ByShutdown)).(phase := Polling)
  }

  ghost predicate LeavesSession(st: Settings, w: World, w': World) {
    && w.phase.Polling? && w.shutdown
    && Flushed(st.sink, w.sink, w'.sink) && w' == w.(phase := Idle, sink := w'.sink)
  }

  ghost predicate LeavingGivesUp(st: Settings, w: World, w': World) {
    && w.phase.Polling? && w.shutdown
    && GaveUp(st.sink, w.sink, w'.sink) && w' == Failed(st, w.(sink := w'.sink))
  }

  ghost predicate Stops(st: Settings, w: World, w': World) {
    && w.phase.Idle? && w.shutdown
    && (Flushed(st.sink, w.sink, w'.sink) || GaveUp(st.sink, w.sink, w'.sink))
    && w' == w.(phase := Stopped, sink := w'.sink)
  }

  predicate Signalled(w: World, w': World) { w' == w.(shutdown := true) }

  ghost predicate Next(st: Settings, w: World, w': World) {
    || Connects(w, w') || ConnectFails(st, w, w')
    || (exists taken :: Polls(w, w', taken)) || PollsNothing(st, w, w') || EmptyPollGivesUp(st, w, w')
    || PollFails(st, w, w') || (exists taken :: PollLoses(st, w, w', taken))
    || SkipsMessage(st, w, w') || PublishesMessage(st, w, w') || PublishingRaises(st, w, w') || ParsingRaises(st, w, w')
    || FinishesPoll(w, w') || BreaksPoll(w, w')
    || LeavesSession(st, w, w') || LeavingGivesUp(st, w, w')
    || Stops(st, w, w') || Signalled(w, w')
  }

  ghost predicate IsRun(st: Settings, run: seq<World>) {
    && run != [] && run[0] == START
    && forall i :: 0 <= i < |run| - 1 ==> Next(st, run[i], run[i + 1])
  }

  // ---- Invariants -----------------------------------------------------------------------------------------

  /**
   Conservation: what the sink has accepted, confirmed batches first and then the buffer, is
   exactly the mapped events decoded so far, in WAL order.
   */
  ghost predicate Conserved(st: Settings, w: World) {
    && SinkOk(st.sink, w.sink)
    && Accepted(w.sink) == DecodedLog(st.sink, w.sessions)
  }

  /** The parser is that of the current session. */
  predicate InStep(w: World) {
    w.phase.Polling? || w.phase.Draining? ==> w.sessions != [] && w.parser == StateAfter(Processed(LastSession(w)))
  }

  /** A poll whose loop has ended left out nothing, or exactly the tail after an early exit. */
  predicate PollOk(p: Poll) {
    && p.done <= |p.taken|
    && (p.exit.Completed? ==> p.done == |p.taken|)
    && (p.exit.ByShutdown? ==> p.done < |p.taken|)
    && (p.exit.ByPublish? || p.exit.ByParse? ==> p.done > 0)
    && (p.exit.ByPoll? ==> p.done == 0 && p.taken != [])
  }

  /** Only the last poll of a session may have ended early. */
  predicate PollsOk(polls: seq<Poll>) {
    && (forall i :: 0 <= i < |polls| ==> PollOk(polls[i]))
    && (forall i :: 0 <= i < |polls| - 1 ==> polls[i].exit.Completed?)
  }

  function LastExit(w: World): Exit {
    if LastSession(w) == [] then Completed else ThisPoll(w).exit
  }

  predicate SessionsOk(sessions: seq<seq<Poll>>) {
    forall i :: 0 <= i < |sessions| ==> PollsOk(sessions[i])
  }

  /** No poll of the session is still running. */
  predicate HasEnded(polls: seq<Poll>) { polls != [] ==> !polls[|polls| - 1].exit.Running? }

  predicate EarlierEnded(sessions: seq<seq<Poll>>) {
    forall i :: 0 <= i < |sessions| - 1 ==> HasEnded(sessions[i])
  }

  /** What the last poll of all says about the phase: only a poll being drained is running. */
  predicate PhaseFits(w: World) {
    && (w.phase.Draining? <==> LastExit(w).Running?)
    && (w.phase.Draining? ==> InPoll(w))
    && (w.phase.Polling? ==> LastExit(w).Completed? || (LastExit(w).ByShutdown? && w.shutdown))
  }

  /** Polls are well accounted, and the loop goes on only after a completed poll. */
  predicate ExitsOk(w: World) { SessionsOk(w.sessions) && EarlierEnded(w.sessions) && PhaseFits(w) }

  /** Each delay is that of its attempt; a streak that begins inside a session begins with attempt 0. */
  ghost predicate Streak(st: Settings, w: World) {
    && w.attempt <= |w.delays| <= w.attempt + 1
    && forall i :: 0 <= i < |w.delays| ==> w.delays[i] == Backoff(st, i + w.attempt + 1 - |w.delays|)
  }

  /** Back-off sleeps never shrink within a streak and stay below the cap. */
  ghost predicate DelaysOk(st: Settings, w: World) {
    && Streak(st, w)
    && (w.phase.Polling? || w.phase.Draining? ==> w.attempt == 0 && w.delays == [])
    && (forall i :: 0 <= i < |w.delays| ==> w.delays[i] <= Backoff(st, w.attempt) <= st.backoffMax)
    && (forall i, j :: 0 <= i < j < |w.delays| ==> w.delays[i] <= w.delays[j])
  }

  ghost predicate Inv(st: Settings, w: World) {
    Conserved(st, w) && InStep(w) && ExitsOk(w) && DelaysOk(st, w)
  }

  // ---- Each step keeps the invariants: the log ---------------------------------------------------------------

  function Init<T>(s: seq<T>): seq<T>
    requires s != []
  {
    s[..|s| - 1]
  }

  lemma ProcessedSnoc(polls: seq<Poll>, p: Poll)
    requires p.done <= |p.taken|
    ensures Processed(polls + [p]) == Processed(polls) + p.taken[..p.done]
  {
    assert (polls + [p])[..|polls|] == polls;
  }

  lemma LogOfSessions(cfg: Config, sessions: seq<seq<Poll>>, polls: seq<Poll>)
    ensures DecodedLog(cfg, sessions + [polls]) == DecodedLog(cfg, sessions) + MappedOf(cfg, Decoded(Processed(polls)))
  {
    assert (sessions + [polls])[..|sessions|] == sessions;
  }

  lemma MappedOfSnoc(cfg: Config, events: seq<ChangeEvent>, e: ChangeEvent)
    ensures MappedOf(cfg, events + [e]) == MappedOf(cfg, events) + Taken(cfg, e)
  {
    assert (events + [e])[..|events|] == events;
  }

  lemma SessionsSplit(w: World)
    requires w.sessions != []
    ensures w.sessions == Init(w.sessions) + [LastSession(w)]
    ensures LastSession(w) != [] ==> LastSession(w) == Init(LastSession(w)) + [ThisPoll(w)]
  {
  }

  /** Replacing the last session by one with the same processed messages changes no log. */
  lemma SameLog(cfg: Config, w: World, polls: seq<Poll>)
    requires w.sessions != [] && Processed(polls) == Processed(LastSession(w))
    ensures DecodedLog(cfg, SetLastSession(w, polls).sessions) == DecodedLog(cfg, w.sessions)
    ensures LastSession(SetLastSession(w, polls)) == polls
  {
    hide DecodedLog, Processed, MappedOf, Decoded;
    SessionsSplit(w);
    LogOfSessions(cfg, Init(w.sessions), polls);
    LogOfSessions(cfg, Init(w.sessions), LastSession(w));
  }

  /** Handing the next message to the parser extends the session by it. */
  lemma AdvancedProcessed(w: World, exit: Exit)
    requires MorePending(w)
    ensures var p := ThisPoll(w);
            Processed(LastSession(Advanced(w, exit))) == Processed(LastSession(w)) + [p.taken[p.done]]
    ensures LastSession(Advanced(w, exit))
         == Init(LastSession(w)) + [ThisPoll(w).(done := ThisPoll(w).done + 1, exit := exit)]
    ensures Advanced(w, exit).sessions == Init(w.sessions) + [LastSession(Advanced(w, exit))]
  {
    hide Processed, NextStep;
    var p := ThisPoll(w);
    var p' := p.(done := p.done + 1, exit := exit);
    SessionsSplit(w);
    ProcessedSnoc(Init(LastSession(w)), p);
    ProcessedSnoc(Init(LastSession(w)), p');
    assert p'.taken[..p'.done] == p.taken[..p.done] + [p.taken[p.done]];
  }

  lemma AdvancedLog(st: Settings, w: World, exit: Exit)
    requires MorePending(w) && w.parser == StateAfter(Processed(LastSession(w)))
    ensures DecodedLog(st.sink, Advanced(w, exit).sessions)
         == DecodedLog(st.sink, w.sessions) + MappedOf(st.sink, EventOf(NextReply(w)))
    ensures Advanced(w, exit).parser == StateAfter(Processed(LastSession(Advanced(w, exit))))
  {
    hide DecodedLog, Processed, MappedOf, Parse, Advanced, DecodedFrom, StateFrom, EventOf, Taken;
    var before, m := Processed(LastSession(w)), ThisPoll(w).taken[ThisPoll(w).done];
    SessionsSplit(w);
    AdvancedProcessed(w, exit);
    AdvancedParser(w, exit);
    DecodedSnoc(FRESH, before, m);
    LogOfSessions(st.sink, Init(w.sessions), LastSession(w));
    LogOfSessions(st.sink, Init(w.sessions), LastSession(Advanced(w, exit)));
    MappedOfConcat(st.sink, Decoded(before), EventOf(NextReply(w)));
  }

  lemma AdvancedParser(w: World, exit: Exit)
    requires MorePending(w)
    ensures Advanced(w, exit).parser == NextStep(w).state && Advanced(w, exit).sink == w.sink
  {
  }

  lemma {:induction false} MappedOfConcat(cfg: Config, a: seq<ChangeEvent>, b: seq<ChangeEvent>)
    ensures MappedOf(cfg, a + b) == MappedOf(cfg, a) + MappedOf(cfg, b)
  {
    hide Taken;
    if b == [] {
      assert a + b == a;
    } else {
      assert (a + b)[..|a + b| - 1] == a + b[..|b| - 1];
      MappedOfConcat(cfg, a, b[..|b| - 1]);
    }
  }

  lemma MappedOne(cfg: Config, r: Reply)
    ensures MappedOf(cfg, EventOf(r)) == if r.Got? then Taken(cfg, r.event) else []
  {
    if r.Got? {
      MappedOfSnoc(cfg, [], r.event);
      assert [] + [r.event] == [r.event];
    }
  }

  /** Steps that only flush. */
  ghost predicate FlushStep(st: Settings, w: World, w': World) {
    || PollsNothing(st, w, w') || EmptyPollGivesUp(st, w, w')
    || LeavesSession(st, w, w') || LeavingGivesUp(st, w, w') || Stops(st, w, w')
  }

  /** Steps that hand a message to the parser. */
  ghost predicate MessageStep(st: Settings, w: World, w': World) {
    || SkipsMessage(st, w, w') || PublishesMessage(st, w, w') || PublishingRaises(st, w, w') || ParsingRaises(st, w, w')
  }

  /** Steps that open or close a poll. */
  ghost predicate PollStep(w: World, w': World) {
    (exists taken :: Polls(w, w', taken)) || FinishesPoll(w, w') || BreaksPoll(w, w')
  }

  lemma FlushStepConserves(st: Settings, w: World, w': World)
    requires st.Ok() && Conserved(st, w) && InStep(w) && FlushStep(st, w, w')
    ensures Conserved(st, w') && InStep(w') && w'.sessions == w.sessions
  {
    hide SinkOk, Flushed, GaveUp, DecodedLog, Accepted, Processed, StateAfter, Backoff, Config.Ok;
    if Flushed(st.sink, w.sink, w'.sink) {
      FlushedKeepsOk(st.sink, w.sink, w'.sink);
    } else {
      GaveUpKeepsOk(st.sink, w.sink, w'.sink);
    }
  }

  lemma MessageStepConserves(st: Settings, w: World, w': World)
    requires st.Ok() && Conserved(st, w) && InStep(w) && MessageStep(st, w, w')
    ensures Conserved(st, w') && InStep(w')
  {
    hide SinkOk, Published, PublishRaised, DecodedLog, Accepted, Processed, StateAfter, Backoff, Config.Ok, Advanced,
      EventOf, MappedOf, NextStep, SetPoll;
    var exit := if PublishingRaises(st, w, w') then ByPublish
                else if ParsingRaises(st, w, w') then ByParse else Running;
    var a := Advanced(w, exit);
    AdvancedLog(st, w, exit);
    AdvancedParser(w, exit);
    MappedOne(st.sink, NextReply(w));
    AdvancedShape(w, exit);
    if PublishesMessage(st, w, w') {
      PublishedKeepsOk(st.sink, w.sink, NextReply(w).event, w'.sink);
    } else if PublishingRaises(st, w, w') {
      PublishRaisedKeepsOk(st.sink, w.sink, NextReply(w).event, w'.sink);
    } else {
      AcceptedNothing(w.sink);
    }
  }

  lemma AdvancedShape(w: World, exit: Exit)
    requires MorePending(w)
    ensures var a := Advanced(w, exit);
            a.phase == w.phase && a.shutdown == w.shutdown && a.attempt == w.attempt && a.delays == w.delays
            && a.sessions != []
  {
  }

  lemma PollStepConserves(st: Settings, w: World, w': World)
    requires Conserved(st, w) && InStep(w) && PollStep(w, w')
    ensures Conserved(st, w') && InStep(w')
  {
    hide SinkOk, DecodedLog, Accepted, Processed, StateAfter;
    SessionsSplit(w);
    var polls := LastSession(w');
    if taken :| Polls(w, w', taken) {
      ProcessedSnoc(LastSession(w), Poll(taken, 0, Running));
      assert Processed(LastSession(w)) + [] == Processed(LastSession(w));
      SameLog(st.sink, w, LastSession(w) + [Poll(taken, 0, Running)]);
    } else {
      var p := ThisPoll(w);
      var p' := if FinishesPoll(w, w') then p.(exit := Completed) else p.(exit := ByShutdown);
      ProcessedSnoc(Init(LastSession(w)), p);
      ProcessedSnoc(Init(LastSession(w)), p');
      SameLog(st.sink, w, Init(LastSession(w)) + [p']);
    }
  }

  lemma PollLosesConserves(st: Settings, w: World, w': World, taken: seq<Message>)
    requires Conserved(st, w) && PollLoses(st, w, w', taken)
    ensures Conserved(st, w') && InStep(w')
  {
    hide SinkOk, DecodedLog, Accepted, Processed, Backoff;
    ProcessedSnoc(LastSession(w), Poll(taken, 0, ByPoll));
    assert Processed(LastSession(w)) + [] == Processed(LastSession(w));
    SameLog(st.sink, w, LastSession(w) + [Poll(taken, 0, ByPoll)]);
  }

  lemma NewSessionConserves(st: Settings, w: World)
    requires Conserved(st, w)
    ensures Conserved(st, NewSession(w))
    ensures NewSession(w).parser == StateAfter(Processed(LastSession(NewSession(w))))
  {
    hide SinkOk, Accepted;
    LogOfSessions(st.sink, w.sessions, []);
    assert Processed([]) == [] && Decoded([]) == [];
  }

  lemma {:induction false} NextConserves(st: Settings, w: World, w': World)
    requires st.Ok() && Conserved(st, w) && InStep(w) && Next(st, w, w')
    ensures Conserved(st, w') && InStep(w')
  {
    hide SinkOk, DecodedLog, Accepted, Processed, StateAfter, Backoff, Config.Ok, Polls, FinishesPoll, BreaksPoll,
      SkipsMessage,
      PublishesMessage, PublishingRaises, ParsingRaises, PollsNothing, EmptyPollGivesUp, LeavesSession, LeavingGivesUp,
      Stops;
    if FlushStep(st, w, w') {
      FlushStepConserves(st, w, w');
    } else if MessageStep(st, w, w') {
      MessageStepConserves(st, w, w');
    } else if PollStep(w, w') {
      PollStepConserves(st, w, w');
    } else if taken :| PollLoses(st, w, w', taken) {
      PollLosesConserves(st, w, w', taken);
    } else if Connects(w, w') || ConnectFails(st, w, w') {
      NewSessionConserves(st, w);
    }
  }

  // ---- Each step keeps the invariants: polls and delays ---------------------------------------------------------

  lemma LastSet(sessions: seq<seq<Poll>>, polls: seq<Poll>)
    requires sessions != [] && SessionsOk(sessions) && EarlierEnded(sessions) && PollsOk(polls)
    ensures SessionsOk(Init(sessions) + [polls]) && EarlierEnded(Init(sessions) + [polls])
  {
    hide PollsOk, HasEnded;
  }

  lemma PhaseOfLast(w: World, init: seq<seq<Poll>>, polls: seq<Poll>)
    requires w.sessions == init + [polls] && polls != [] && PollOk(polls[|polls| - 1])
    requires w.phase.Draining? <==> polls[|polls| - 1].exit.Running?
    requires var exit := polls[|polls| - 1].exit;
             w.phase.Polling? ==> exit.Completed? || (exit.ByShutdown? && w.shutdown)
    ensures PhaseFits(w)
  {
    assert LastSession(w) == polls;
  }

  /** A step that puts other polls in the place of the last session's. */
  lemma LastSessionExits(w: World, w': World, polls: seq<Poll>)
    requires ExitsOk(w) && w.sessions != [] && w'.sessions == Init(w.sessions) + [polls]
    requires polls != [] && PollsOk(polls)
    requires w'.phase.Draining? <==> polls[|polls| - 1].exit.Running?
    requires var exit := polls[|polls| - 1].exit;
             w'.phase.Polling? ==> exit.Completed? || (exit.ByShutdown? && w'.shutdown)
    ensures ExitsOk(w')
  {
    assert PollOk(polls[|polls| - 1]);
    hide SessionsOk, EarlierEnded, PhaseFits, PollsOk, PollOk;
    LastSet(w.sessions, polls);
    PhaseOfLast(w', Init(w.sessions), polls);
  }

  lemma MessageStepExits(st: Settings, w: World, w': World)
    requires ExitsOk(w) && MessageStep(st, w, w')
    ensures ExitsOk(w')
  {
    var exit := if PublishingRaises(st, w, w') then ByPublish
                else if ParsingRaises(st, w, w') then ByParse else Running;
    MessageStepMoves(st, w, w', exit);
    LastPollsOk(w);
    hide *;
    var p := ThisPoll(w).(done := ThisPoll(w).done + 1, exit := exit);
    LastPollReplaced(LastSession(w), p);
    LastSessionExits(w, w', Init(LastSession(w)) + [p]);
  }

  /** How a message step moves the last poll. */
  lemma MessageStepMoves(st: Settings, w: World, w': World, exit: Exit)
    requires MessageStep(st, w, w')
    requires exit == (if PublishingRaises(st, w, w') then ByPublish
                      else if ParsingRaises(st, w, w') then ByParse else Running)
    ensures w.sessions != [] && LastSession(w) != []
    ensures var p := ThisPoll(w).(done := ThisPoll(w).done + 1, exit := exit);
            PollOk(p) && w'.sessions == Init(w.sessions) + [Init(LastSession(w)) + [p]]
    ensures if exit.Running? then w'.phase.Draining? else w'.phase.Idle?
  {
    hide Backoff, NextStep, Published, PublishRaised, IsMapped;
  }

  lemma LastPollReplaced(polls: seq<Poll>, p: Poll)
    requires PollsOk(polls) && polls != [] && PollOk(p)
    ensures PollsOk(Init(polls) + [p])
  {
  }

  lemma PollAdded(polls: seq<Poll>, p: Poll)
    requires PollsOk(polls) && PollOk(p) && (polls != [] ==> polls[|polls| - 1].exit.Completed?)
    ensures PollsOk(polls + [p])
  {
  }

  lemma LastPollsOk(w: World)
    requires ExitsOk(w)
    ensures PollsOk(LastSession(w))
  {
    NoPollsOk();
    hide PollsOk;
  }

  lemma PollOpens(w: World, w': World, taken: seq<Message>)
    requires ExitsOk(w) && Polls(w, w', taken)
    ensures ExitsOk(w')
  {
    LastPollsOk(w);
    hide PollsOk, SessionsOk, EarlierEnded;
    PollAdded(LastSession(w), Poll(taken, 0, Running));
    LastSessionExits(w, w', LastSession(w) + [Poll(taken, 0, Running)]);
  }

  lemma PollLost(st: Settings, w: World, w': World, taken: seq<Message>)
    requires ExitsOk(w) && PollLoses(st, w, w', taken)
    ensures ExitsOk(w')
  {
    LastPollsOk(w);
    hide PollsOk, Backoff, SessionsOk, EarlierEnded;
    PollAdded(LastSession(w), Poll(taken, 0, ByPoll));
    LastSessionExits(w, w', LastSession(w) + [Poll(taken, 0, ByPoll)]);
  }

  lemma PollCloses(w: World, w': World, exit: Exit)
    requires ExitsOk(w) && InPoll(w) && PollOk(ThisPoll(w).(exit := exit))
    requires exit.Completed? || (exit.ByShutdown? && w.shutdown)
    requires w' == SetPoll(w, ThisPoll(w).(exit := exit)).(phase := Polling)
    ensures ExitsOk(w')
  {
    LastPollsOk(w);
    hide PollsOk, PollOk, SessionsOk, EarlierEnded;
    LastPollReplaced(LastSession(w), ThisPoll(w).(exit := exit));
    LastSessionExits(w, w', Init(LastSession(w)) + [ThisPoll(w).(exit := exit)]);
  }

  lemma SameSessionsExits(w: World, w': World)
    requires ExitsOk(w) && w'.sessions == w.sessions && !w.phase.Draining? && !w'.phase.Draining?
    requires w'.phase.Polling? ==> w.phase.Polling? && (w.shutdown ==> w'.shutdown)
    ensures ExitsOk(w')
  {
    hide SessionsOk, EarlierEnded;
  }

  lemma SessionAdded(sessions: seq<seq<Poll>>)
    requires SessionsOk(sessions) && EarlierEnded(sessions)
    requires sessions != [] ==> HasEnded(sessions[|sessions| - 1])
    ensures SessionsOk(sessions + [[]]) && EarlierEnded(sessions + [[]])
  {
    NoPollsOk();
    hide PollsOk, HasEnded;
  }

  lemma NewSessionExits(w: World, w': World)
    requires ExitsOk(w) && w.phase.Idle? && w'.sessions == w.sessions + [[]] && !w'.phase.Draining?
    ensures ExitsOk(w')
  {
    assert w.sessions != [] ==> HasEnded(w.sessions[|w.sessions| - 1]);
    assert LastSession(w') == [];
    hide SessionsOk, EarlierEnded;
    SessionAdded(w.sessions);
  }

  lemma {:induction false} NextExits(st: Settings, w: World, w': World)
    requires ExitsOk(w) && Next(st, w, w')
    ensures ExitsOk(w')
  {
    hide Backoff, Flushed, GaveUp, ExitsOk, SkipsMessage, PublishesMessage, PublishingRaises, ParsingRaises, Polls,
      InPoll;
    if MessageStep(st, w, w') {
      MessageStepExits(st, w, w');
    } else if taken :| Polls(w, w', taken) {
      PollOpens(w, w', taken);
    } else if taken :| PollLoses(st, w, w', taken) {
      PollLost(st, w, w', taken);
    } else if FinishesPoll(w, w') || BreaksPoll(w, w') {
      ClosingExit(w);
      PollCloses(w, w', if FinishesPoll(w, w') then Completed else ByShutdown);
    } else if Connects(w, w') || ConnectFails(st, w, w') {
      NewSessionExits(w, w');
    } else if Signalled(w, w') {
      SignalExits(w);
    } else {
      SameSessionsExits(w, w');
    }
  }

  lemma ClosingExit(w: World)
    requires ExitsOk(w)
    ensures InPoll(w) ==> PollOk(
              ThisPoll(w).(exit := if ThisPoll(w).done == |ThisPoll(w).taken| then Completed else ByShutdown))
  {
  }

  lemma SignalExits(w: World)
    requires ExitsOk(w)
    ensures ExitsOk(w.(shutdown := true))
  {
    hide SessionsOk, EarlierEnded;
  }

  lemma NoPollsOk()
    ensures PollsOk([])
  {
  }

  /** A step that keeps the delays, or starts over without any. */
  lemma SameDelays(st: Settings, w: World, w': World)
    requires DelaysOk(st, w)
    requires (w'.attempt == w.attempt && w'.delays == w.delays) || (w'.attempt == 0 && w'.delays == [])
    requires w'.phase.Polling? || w'.phase.Draining? ==> w.phase.Polling? || w.phase.Draining? || w'.delays == []
    requires w'.phase.Polling? || w'.phase.Draining? ==> w'.attempt == 0 || w.phase.Polling? || w.phase.Draining?
    ensures DelaysOk(st, w')
  {
    hide Backoff;
  }

  /** A step that fails adds the delay of its attempt, counted on by one at a failed connect. */
  lemma FailedDelays(st: Settings, w: World, w': World)
    requires st.Ok() && DelaysOk(st, w) && FailsStep(st, w, w')
    ensures DelaysOk(st, w')
  {
    BackoffGrows(st, w.attempt, w'.attempt);
    BackoffGrows(st, w'.attempt, w'.attempt);
    hide Backoff, Settings.Ok;
  }

  /** A connect that fails counts as one more attempt; any other failure happens in a session. */
  predicate FailsStep(st: Settings, w: World, w': World) {
    && w'.phase.Idle? && w'.delays == w.delays + [Backoff(st, w'.attempt)]
    && if w.phase.Idle? then w'.attempt == w.attempt + 1
       else (w.phase.Polling? || w.phase.Draining?) && w'.attempt == w.attempt
  }

  /** Every step either fails, or keeps the delays, or starts over. */
  lemma StepDelays(st: Settings, w: World, w': World)
    requires Next(st, w, w')
    ensures
      || FailsStep(st, w, w')
      || (((w'.attempt == w.attempt && w'.delays == w.delays) || (w'.attempt == 0 && w'.delays == []))
          && (w'.phase.Polling? || w'.phase.Draining? ==>
                w.phase.Polling? || w.phase.Draining? || (w'.attempt == 0 && w'.delays == [])))
  {
    hide Backoff, Flushed, GaveUp, Published, PublishRaised, NextStep, IsMapped;
  }

  lemma NextDelays(st: Settings, w: World, w': World)
    requires st.Ok() && DelaysOk(st, w) && Next(st, w, w')
    ensures DelaysOk(st, w')
  {
    hide Next, DelaysOk, Backoff, Settings.Ok;
    StepDelays(st, w, w');
    if FailsStep(st, w, w') {
      FailedDelays(st, w, w');
    } else {
      SameDelays(st, w, w');
    }
  }
}
