/**
 Readers of the event log: the watcher `watch_events`, the polling fallback
 `poll_event_reader`, and limited `list_events` pages, interleaved with emits.

 A segment of a generator between two suspension points is one step, so emits
 may land between any two hand-overs.  A timeout may happen whenever a watcher
 waits.  One `Reader` is one consumer: it may disconnect, reconnect with the
 last event id it has seen, switch between watching and polling, and read pages.
 */
module EventReaders {
  import opened Prelude
  import opened EventLog

  datatype Mode = Watch | Poll

  datatype Phase =
    | Idle                                                      // no generator
    | Reading                                                   // about to read the log
    | Yielding(current: RuntimeEvent, rest: seq<RuntimeEvent>)  // suspended at `yield current`
    | Waiting                                                   // watcher: waiting for its wake flag
    | Sleeping                                                  // poller: asleep after an empty read
    | Heartbeat                                                 // suspended at the heartbeat yield
    | Failed                                                    // the cursor was not found

  /**
   `cursor`, `phase` and `flag` are the generator's own state.  The rest is
   history: `origin` is where the consumer first started, `seen` all events
   handed to it (heartbeats aside), `fetches` how often a read succeeded, and
   `fetchedAt`, `clearedAt` the log's length at the last successful read and
   at the last `clear()` of the wake flag.
   */
  datatype Reader = Reader(
    mode: Mode, session: Option<SessionId>, origin: Option<EventId>,
    cursor: Option<EventId>, phase: Phase, flag: bool,
    seen: seq<RuntimeEvent>, fetches: nat, fetchedAt: nat, clearedAt: nat)

  datatype Action = Open(mode: Mode) | Proceed | Timeout | Close | Page(limit: Option<int>)

  datatype Step = Emit(event: RuntimeEvent) | At(reader: nat, action: Action)

  datatype System = System(log: seq<RuntimeEvent>, readers: seq<Reader>)

  // -------------------------------------------------------------------- steps

  function NewReader(session: Option<SessionId>, origin: Option<EventId>): (r: Reader)
  {
    Reader(Watch, session, origin, origin, Idle, false, [], 0, 0, 0)
  }

  function HandOver(r: Reader, batch: seq<RuntimeEvent>): (r': Reader)
    requires batch != []
  {
    r.(seen := r.seen + [batch[0]], phase := Yielding(batch[0], batch[1..]))
  }

  /** The watcher clears its flag and waits; the poller goes back to its loop head. */
  function Rest(r: Reader, log: seq<RuntimeEvent>): (r': Reader)
  {
    if r.mode.Watch? then r.(flag := false, phase := Waiting, clearedAt := |log|)
    else r.(phase := Reading)
  }

  function Fetch(r: Reader, log: seq<RuntimeEvent>): (r': Reader)
  {
    match Visible(log, r.session, r.cursor)
    case Err(_) => r.(phase := Failed)
    case Ok(batch) =>
      var read := r.(fetches := r.fetches + 1, fetchedAt := |log|);
      if batch != [] then HandOver(read, batch)
      else if r.mode.Watch? then Rest(read, log)
      else if r.phase.Sleeping? then read.(phase := Heartbeat)
      else read.(phase := Sleeping)
  }

  function Continue(r: Reader, log: seq<RuntimeEvent>): (r': Reader)
  {
    match r.phase
    case Reading => Fetch(r, log)
    case Sleeping => Fetch(r, log)
    case Waiting => if r.flag then Fetch(r, log) else r
    case Yielding(current, rest) =>
      var advanced := r.(cursor := Some(current.id));
      if rest != [] then HandOver(advanced, rest) else Rest(advanced, log)
    case Heartbeat => Rest(r, log)
    case _ => r
  }

  function ReadPage(r: Reader, log: seq<RuntimeEvent>, limit: Option<int>): (r': Reader)
  {
    match Filtered(Listed(log), r.session, LastId(r.seen, r.origin), limit)
    case Ok(batch) => r.(seen := r.seen + batch, fetches := r.fetches + 1, fetchedAt := |log|, phase := Idle)
    case Err(InvalidLimit(_)) => r
    case Err(CursorNotFound(_)) => r.(phase := Failed)
  }

  predicate Disconnected(r: Reader) {
    r.phase.Idle? || r.phase.Failed?
  }

  /** An action that is not possible in the present phase changes nothing. */
  function Act(r: Reader, log: seq<RuntimeEvent>, action: Action): (r': Reader)
  {
    match action
    case Open(mode) =>
      if Disconnected(r) then
        r.(mode := mode, cursor := LastId(r.seen, r.origin), flag := false, phase := Reading)
      else r
    case Proceed => Continue(r, log)
    case Timeout => if r.phase.Waiting? then r.(phase := Heartbeat) else r
    case Close => if Disconnected(r) then r else r.(phase := Idle)
    case Page(limit) => if Disconnected(r) then ReadPage(r, log, limit) else r
  }

  predicate Subscribed(r: Reader) {
    r.mode.Watch? && (r.phase.Yielding? || r.phase.Waiting? || r.phase.Heartbeat?)
  }

  function Woken(r: Reader): (r': Reader)
  {
    if Subscribed(r) then r.(flag := true) else r
  }

  function Apply(s: System, step: Step): (s': System)
    ensures |s'.readers| == |s.readers|
  {
    match step
    case Emit(event) =>
      System(Store(s.log, event), seq(|s.readers|, i requires 0 <= i < |s.readers| => Woken(s.readers[i])))
    case At(i, action) =>
      if i < |s.readers| then s.(readers := s.readers[i := Act(s.readers[i], s.log, action)]) else s
  }

  /** Any interleaving, from an empty log and consumers that have not connected yet. */
  function Run(consumers: seq<(Option<SessionId>, Option<EventId>)>, steps: seq<Step>): (s: System)
    ensures |s.readers| == |consumers|
    decreases |steps|
  {
    if steps == [] then
      System([], seq(|consumers|, i requires 0 <= i < |consumers| => NewReader(consumers[i].0, consumers[i].1)))
    else
      Apply(Run(consumers, steps[..|steps| - 1]), steps[|steps| - 1])
  }

  // --------------------------------------------------------------- invariants

  /** Fetched but not yet handed over. */
  function Pending(r: Reader): (p: seq<RuntimeEvent>) {
    if r.phase.Yielding? then r.phase.rest else []
  }

  /** A generator that has read the log since it was opened. */
  predicate Live(r: Reader) {
    r.phase.Yielding? || r.phase.Waiting? || r.phase.Sleeping? || r.phase.Heartbeat?
  }

  ghost predicate CursorIsLastSeen(r: Reader) {
    match r.phase
    case Yielding(current, _) =>
      && r.seen != []
      && r.seen[|r.seen| - 1] == current
      && r.cursor == LastId(r.seen[..|r.seen| - 1], r.origin)
    case Idle => true
    case Failed => true
    case _ => r.cursor == LastId(r.seen, r.origin)
  }

  ghost predicate ReadSoFar(r: Reader, log: seq<RuntimeEvent>)
    requires r.fetchedAt <= |log|
  {
    var visible := Visible(log[..r.fetchedAt], r.session, r.origin);
    && visible.Ok?
    && r.seen + Pending(r) <= visible.value
    && (Live(r) ==> r.seen + Pending(r) == visible.value)
  }

  ghost predicate ReaderInv(r: Reader, log: seq<RuntimeEvent>) {
    && r.fetchedAt <= |log|
    && r.clearedAt <= |log|
    && CursorIsLastSeen(r)
    && (r.fetches == 0 ==> r.seen == [] && !Live(r))
    && (r.fetches > 0 ==> !r.phase.Failed? && ReadSoFar(r, log))
    && (r.phase.Waiting? ==> r.mode.Watch?)
    && (r.phase.Sleeping? ==> r.mode.Poll?)
    && (r.mode.Watch? && (r.phase.Waiting? || r.phase.Heartbeat?) ==> r.fetchedAt <= r.clearedAt)
    && (r.phase.Waiting? && !r.flag ==> r.clearedAt == |log|)
  }

  ghost predicate Inv(s: System) {
    && Distinct(s.log)
    && forall i :: 0 <= i < |s.readers| ==> ReaderInv(s.readers[i], s.log)
  }

  /** What a read returns to a consumer that asks from the last id it has seen. */
  lemma ReadFromLastSeen(r: Reader, log: seq<RuntimeEvent>)
    requires Distinct(log) && r.fetchedAt <= |log|
    requires r.fetches == 0 ==> r.seen == []
    requires r.fetches > 0 ==> (var was := Visible(log[..r.fetchedAt], r.session, r.origin);
                                was.Ok? && r.seen <= was.value)
    ensures r.fetches > 0 ==> Visible(log, r.session, r.origin).Ok?
    ensures Visible(log, r.session, r.origin).Ok? ==>
              && r.seen <= Visible(log, r.session, r.origin).value
              && Visible(log, r.session, LastId(r.seen, r.origin))
                 == Ok(Visible(log, r.session, r.origin).value[|r.seen|..])
  {
    if r.fetches > 0 {
      assert log == log[..r.fetchedAt] + log[r.fetchedAt..];
      VisibleGrows(log[..r.fetchedAt], log[r.fetchedAt..], r.session, r.origin);
    }
    if Visible(log, r.session, r.origin).Ok? {
      ResumeContinues(log, r.session, r.origin, r.seen);
    }
  }

  /** Handing over the first event of what was read keeps the invariant. */
  lemma HandOverKeepsInv(r: Reader, log: seq<RuntimeEvent>, batch: seq<RuntimeEvent>, all: seq<RuntimeEvent>)
    requires batch != [] && r.fetches > 0 && r.fetchedAt <= |log| && r.clearedAt <= |log|
    requires r.cursor == LastId(r.seen, r.origin)
    requires Visible(log[..r.fetchedAt], r.session, r.origin) == Ok(all) && r.seen + batch == all
    ensures ReaderInv(HandOver(r, batch), log)
  {
    var r' := HandOver(r, batch);
    assert r'.seen + Pending(r') == all;
    assert r'.seen[..|r'.seen| - 1] == r.seen;
  }

  lemma FetchKeepsInv(r: Reader, log: seq<RuntimeEvent>)
    requires Distinct(log) && ReaderInv(r, log)
    requires r.phase.Reading? || r.phase.Sleeping? || r.phase.Waiting?
    ensures ReaderInv(Fetch(r, log), log)
    ensures Fetch(r, log).phase.Failed? || (Live(Fetch(r, log)) && Fetch(r, log).fetchedAt == |log|)
  {
    assert r.seen + [] == r.seen;
    ReadFromLastSeen(r, log);
    assert log[..|log|] == log;
    var result := Visible(log, r.session, r.cursor);
    if result.Ok? {
      var read := r.(fetches := r.fetches + 1, fetchedAt := |log|);
      FirstReadFindsOrigin(r, log);
      var all := Visible(log, r.session, r.origin).value;
      assert r.seen + result.value == all;
      if result.value != [] {
        HandOverKeepsInv(read, log, result.value, all);
      } else {
        assert r.seen == all;
      }
    }
  }

  /** A read can only succeed when the start cursor is in scope. */
  lemma FirstReadFindsOrigin(r: Reader, log: seq<RuntimeEvent>)
    requires r.fetches == 0 ==> r.seen == []
    requires r.fetches > 0 ==> Visible(log, r.session, r.origin).Ok?
    requires Visible(log, r.session, LastId(r.seen, r.origin)).Ok?
    ensures Visible(log, r.session, r.origin).Ok?
  {
  }

  lemma ContinueKeepsInv(r: Reader, log: seq<RuntimeEvent>)
    requires Distinct(log) && ReaderInv(r, log)
    ensures ReaderInv(Continue(r, log), log)
  {
    match r.phase
    case Reading => FetchKeepsInv(r, log);
    case Sleeping => FetchKeepsInv(r, log);
    case Waiting => if r.flag { FetchKeepsInv(r, log); }
    case Yielding(current, rest) =>
      if rest != [] {
        HandOverKeepsInv(r.(cursor := Some(current.id)), log, rest, r.seen + rest);
      } else {
        assert r.seen + [] == r.seen;
      }
    case _ =>
  }

  lemma PageKeepsInv(r: Reader, log: seq<RuntimeEvent>, limit: Option<int>)
    requires Distinct(log) && ReaderInv(r, log) && Disconnected(r)
    ensures ReaderInv(ReadPage(r, log, limit), log)
  {
    AppendNothing(r.seen, r.seen);
    ReadFromLastSeen(r, log);
    if limit.Some? && limit.value < 1 {
      assert ReadPage(r, log, limit) == r;
    } else if Visible(log, r.session, LastId(r.seen, r.origin)).Ok? {
      FirstReadFindsOrigin(r, log);
      var all := Visible(log, r.session, r.origin).value;
      PartOfRest(r.seen, all, limit);
      PageReadInv(ReadPage(r, log, limit), log, all);
    } else {
      assert r.fetches == 0 && ReadPage(r, log, limit) == r.(phase := Failed);
    }
  }

  lemma PageReadInv(r: Reader, log: seq<RuntimeEvent>, all: seq<RuntimeEvent>)
    requires r.phase.Idle? && r.fetches > 0 && r.fetchedAt == |log| && r.clearedAt <= |log|
    requires Visible(log, r.session, r.origin) == Ok(all) && r.seen <= all
    ensures ReaderInv(r, log)
  {
    AppendNothing(log, log);
    AppendNothing(r.seen, r.seen);
  }

  lemma PartOfRest<T>(seen: seq<T>, all: seq<T>, limit: Option<int>)
    requires seen <= all && (limit.Some? ==> limit.value >= 1)
    ensures seen + (if limit.None? then all[|seen|..] else FirstN(all[|seen|..], limit.value)) <= all
  {
    assert seen + all[|seen|..] == all;
  }

  lemma ActKeepsInv(r: Reader, log: seq<RuntimeEvent>, action: Action)
    requires Distinct(log) && ReaderInv(r, log)
    ensures ReaderInv(Act(r, log, action), log)
  {
    match action
    case Proceed => ContinueKeepsInv(r, log);
    case Page(limit) => if Disconnected(r) { PageKeepsInv(r, log, limit); }
    case _ => StandingStillKeepsInv(r, log, action);
  }

  /** Opening, closing and timing out hand nothing over. */
  lemma StandingStillKeepsInv(r: Reader, log: seq<RuntimeEvent>, action: Action)
    requires ReaderInv(r, log)
    requires action.Open? || action.Timeout? || action.Close?
    ensures ReaderInv(Act(r, log, action), log)
  {
    var r' := Act(r, log, action);
    assert r.seen + [] == r.seen;
    if r.fetches > 0 {
      var all := Visible(log[..r.fetchedAt], r.session, r.origin).value;
      assert r.seen <= r.seen + Pending(r) <= all;
      assert r'.seen + Pending(r') <= all;
    }
  }

  lemma EmitKeepsInv(r: Reader, log: seq<RuntimeEvent>, event: RuntimeEvent)
    requires Distinct(log) && ReaderInv(r, log)
    ensures ReaderInv(Woken(r), Store(log, event))
  {
    StoreKeepsDistinct(log, event);
    assert Store(log, event)[..r.fetchedAt] == log[..r.fetchedAt];
  }

  /** The invariant holds in every interleaving of any number of readers and emits. */
  lemma {:induction false} RunKeepsInv(consumers: seq<(Option<SessionId>, Option<EventId>)>, steps: seq<Step>)
    ensures Inv(Run(consumers, steps))
    decreases |steps|
  {
    if steps != [] {
      var s, step := Run(consumers, steps[..|steps| - 1]), steps[|steps| - 1];
      RunKeepsInv(consumers, steps[..|steps| - 1]);
      match step {
        case Emit(event) =>
          StoreKeepsDistinct(s.log, event);
          forall i | 0 <= i < |s.readers|
            ensures ReaderInv(Woken(s.readers[i]), Store(s.log, event))
          {
            EmitKeepsInv(s.readers[i], s.log, event);
          }
        case At(i, action) =>
          if i < |s.readers| {
            ActKeepsInv(s.readers[i], s.log, action);
          }
      }
    }
  }

  predicate SameConsumer(r: Reader, r': Reader) {
    r'.session == r.session && r'.origin == r.origin
  }

  lemma ActKeepsConsumer(r: Reader, log: seq<RuntimeEvent>, action: Action)
    ensures SameConsumer(r, Act(r, log, action))
  {
    FetchKeepsConsumer(r, log);
  }

  lemma FetchKeepsConsumer(r: Reader, log: seq<RuntimeEvent>)
    ensures SameConsumer(r, Fetch(r, log))
  {
  }

  lemma ApplyKeepsConsumers(s: System, step: Step)
    ensures forall i :: 0 <= i < |s.readers| ==> SameConsumer(s.readers[i], Apply(s, step).readers[i])
  {
    if step.At? && step.reader < |s.readers| {
      ActKeepsConsumer(s.readers[step.reader], s.log, step.action);
    }
  }

  lemma {:induction false} RunKeepsConsumers(consumers: seq<(Option<SessionId>, Option<EventId>)>, steps: seq<Step>)
    ensures forall i :: 0 <= i < |consumers| ==>
              && Run(consumers, steps).readers[i].session == consumers[i].0
              && Run(consumers, steps).readers[i].origin == consumers[i].1
    decreases |steps|
  {
    if steps != [] {
      var init, last := steps[..|steps| - 1], steps[|steps| - 1];
      RunKeepsConsumers(consumers, init);
      ApplyKeepsConsumers(Run(consumers, init), last);
    }
  }

  /** The log of a run is what its emits alone determine. */
  function Emitted(steps: seq<Step>): (r: seq<RuntimeEvent>)
  {
    if steps == [] then []
    else
      var last := steps[|steps| - 1];
      Emitted(steps[..|steps| - 1]) + (if last.Emit? then [last.event] else [])
  }

  lemma {:induction false} RunLog(consumers: seq<(Option<SessionId>, Option<EventId>)>, steps: seq<Step>)
    ensures Run(consumers, steps).log == FirstOccurrences(Emitted(steps))
    decreases |steps|
  {
    LogIsFirstOccurrences(Emitted(steps));
    if steps != [] {
      var init, last := steps[..|steps| - 1], steps[|steps| - 1];
      RunLog(consumers, init);
      LogIsFirstOccurrences(Emitted(init));
      if last.Emit? {
        StoreAllAppend(Emitted(init), last.event);
      } else {
        assert Emitted(steps) == Emitted(init);
      }
    }
  }

  /** A successful read leaves nothing visible behind. */
  lemma FetchReachesEnd(r: Reader, log: seq<RuntimeEvent>)
    requires Distinct(log) && ReaderInv(r, log)
    requires r.phase.Reading? || r.phase.Sleeping? || r.phase.Waiting?
    ensures var r' := Fetch(r, log);
            r'.phase.Failed? || Visible(log, r.session, r.origin) == Ok(r'.seen + Pending(r'))
    ensures r.fetches > 0 ==> !Fetch(r, log).phase.Failed?
  {
    FetchKeepsInv(r, log);
    assert log[..|log|] == log;
  }

  lemma RunStep(consumers: seq<(Option<SessionId>, Option<EventId>)>, steps: seq<Step>, step: Step, s: System)
    requires Run(consumers, steps) == s
    ensures Run(consumers, steps + [step]) == Apply(s, step)
  {
    assert (steps + [step])[..|steps + [step]| - 1] == steps;
  }

  // ------------------------------------------------------------- main results

  /**
   In every interleaving, what a connected reader has yielded plus its unyielded
   batch is the visible log after its start cursor as of its last fetch: in
   order, no gap, no duplicate.  Its backlog is what was stored since.
   */
  lemma DeliveryIsExact(consumers: seq<(Option<SessionId>, Option<EventId>)>, steps: seq<Step>, i: nat)
    requires i < |consumers|
    requires Live(Run(consumers, steps).readers[i])
    ensures var s := Run(consumers, steps); var r := s.readers[i];
            && r.fetchedAt <= |s.log|
            && Visible(s.log[..r.fetchedAt], consumers[i].0, consumers[i].1) == Ok(r.seen + Pending(r))
            && Visible(s.log, consumers[i].0, consumers[i].1)
               == Ok(r.seen + Pending(r) + Scoped(s.log[r.fetchedAt..], consumers[i].0))
  {
    RunKeepsInv(consumers, steps);
    RunKeepsConsumers(consumers, steps);
    var s := Run(consumers, steps);
    var r := s.readers[i];
    assert s.log == s.log[..r.fetchedAt] + s.log[r.fetchedAt..];
    VisibleGrows(s.log[..r.fetchedAt], s.log[r.fetchedAt..], r.session, r.origin);
  }

  /**
   Any chain of resumed reads -- limited pages, watchers, pollers, each starting
   from the last id seen while the log keeps growing -- concatenates to a prefix
   of the visible log.
   */
  lemma ResumedReadsArePrefix(consumers: seq<(Option<SessionId>, Option<EventId>)>, steps: seq<Step>, i: nat)
    requires i < |consumers|
    requires Run(consumers, steps).readers[i].fetches > 0
    ensures var s := Run(consumers, steps); var r := s.readers[i];
            && Visible(s.log, consumers[i].0, consumers[i].1).Ok?
            && r.seen <= Visible(s.log, consumers[i].0, consumers[i].1).value
  {
    RunKeepsInv(consumers, steps);
    RunKeepsConsumers(consumers, steps);
    var s := Run(consumers, steps);
    var r := s.readers[i];
    assert r.seen <= r.seen + Pending(r);
    ReadFromLastSeen(r, s.log);
  }

  /** Watchers, pollers and pagers with the same session and start cursor see the same sequence. */
  lemma ReadersAgree(consumers: seq<(Option<SessionId>, Option<EventId>)>, steps: seq<Step>, i: nat, j: nat)
    requires i < |consumers| && j < |consumers| && consumers[i] == consumers[j]
    ensures var readers := Run(consumers, steps).readers;
            readers[i].seen <= readers[j].seen || readers[j].seen <= readers[i].seen
  {
    RunKeepsInv(consumers, steps);
    var readers := Run(consumers, steps).readers;
    if readers[i].fetches > 0 && readers[j].fetches > 0 {
      ResumedReadsArePrefix(consumers, steps, i);
      ResumedReadsArePrefix(consumers, steps, j);
    } else {
      assert ReaderInv(readers[i], Run(consumers, steps).log) && ReaderInv(readers[j], Run(consumers, steps).log);
    }
  }

  /** Once a read has succeeded, no later read of that consumer raises the cursor error. */
  lemma NoCursorErrorAfterFirstFetch(consumers: seq<(Option<SessionId>, Option<EventId>)>, steps: seq<Step>,
                                     i: nat, action: Action)
    requires i < |consumers|
    requires Run(consumers, steps).readers[i].fetches > 0
    ensures !Run(consumers, steps).readers[i].phase.Failed?
    ensures !Run(consumers, steps + [At(i, action)]).readers[i].phase.Failed?
    ensures Visible(Run(consumers, steps).log, consumers[i].0,
                    LastId(Run(consumers, steps).readers[i].seen, consumers[i].1)).Ok?
  {
    RunKeepsInv(consumers, steps);
    RunKeepsConsumers(consumers, steps);
    RunStep(consumers, steps, At(i, action), Run(consumers, steps));
    ServedNeverFails(Run(consumers, steps).readers[i], Run(consumers, steps).log, action);
  }

  lemma ServedNeverFails(r: Reader, log: seq<RuntimeEvent>, action: Action)
    requires Distinct(log) && ReaderInv(r, log) && r.fetches > 0
    ensures !r.phase.Failed? && !Act(r, log, action).phase.Failed?
    ensures Visible(log, r.session, LastId(r.seen, r.origin)).Ok?
  {
    ActKeepsInv(r, log, action);
    ActGrows(r, log, action);
    assert r.seen <= r.seen + Pending(r);
    ReadFromLastSeen(r, log);
  }

  /** At every poller heartbeat everything visible at the read just before it has been delivered. */
  lemma PollerHeartbeatMeansCaughtUp(consumers: seq<(Option<SessionId>, Option<EventId>)>, steps: seq<Step>, i: nat)
    requires i < |consumers|
    requires Run(consumers, steps).readers[i].phase.Sleeping?
    requires Run(consumers, steps + [At(i, Proceed)]).readers[i].phase.Heartbeat?
    ensures Visible(Run(consumers, steps).log, consumers[i].0, consumers[i].1)
         == Ok(Run(consumers, steps + [At(i, Proceed)]).readers[i].seen)
  {
    var s := Run(consumers, steps);
    RunStep(consumers, steps, At(i, Proceed), s);
    RunKeepsInv(consumers, steps);
    RunKeepsConsumers(consumers, steps);
    EmptySecondRead(s.readers[i], s.log);
  }

  lemma EmptySecondRead(r: Reader, log: seq<RuntimeEvent>)
    requires Distinct(log) && ReaderInv(r, log) && r.phase.Sleeping? && Fetch(r, log).phase.Heartbeat?
    ensures Visible(log, r.session, r.origin) == Ok(Fetch(r, log).seen)
  {
    FetchReachesEnd(r, log);
    AppendNothing(Fetch(r, log).seen, []);
  }

  /**
   A watcher asleep with its flag clear has missed exactly what was stored
   between its last read of the log and its `clear()`; it is up to date if and
   only if nothing in its scope was stored in that window.
   */
  lemma SleepingWatcherBacklog(consumers: seq<(Option<SessionId>, Option<EventId>)>, steps: seq<Step>, i: nat)
    requires i < |consumers|
    requires var r := Run(consumers, steps).readers[i]; r.phase.Waiting? && !r.flag
    ensures var s := Run(consumers, steps); var r := s.readers[i];
            && r.fetchedAt <= r.clearedAt == |s.log|
            && Visible(s.log, consumers[i].0, consumers[i].1)
               == Ok(r.seen + Scoped(s.log[r.fetchedAt..r.clearedAt], consumers[i].0))
            && (Visible(s.log, consumers[i].0, consumers[i].1) == Ok(r.seen)
                <==> Scoped(s.log[r.fetchedAt..r.clearedAt], consumers[i].0) == [])
  {
    RunKeepsInv(consumers, steps);
    DeliveryIsExact(consumers, steps, i);
    var s := Run(consumers, steps);
    var r := s.readers[i];
    assert s.log[r.fetchedAt..r.clearedAt] == s.log[r.fetchedAt..];
    assert r.seen + [] == r.seen;
    var missed := Scoped(s.log[r.fetchedAt..], consumers[i].0);
    assert |r.seen + missed| == |r.seen| + |missed|;
    assert missed == [] ==> r.seen + missed == r.seen;
  }

  /** Heartbeats do not help: without an emit such a watcher delivers nothing, however long it runs. */
  lemma {:induction false} HeartbeatsDeliverNothing(r: Reader, log: seq<RuntimeEvent>, actions: seq<Action>)
    requires r.mode.Watch? && !r.flag && (r.phase.Waiting? || r.phase.Heartbeat?)
    requires forall a :: a in actions ==> a.Timeout? || a.Proceed?
    ensures var r' := ActAll(r, log, actions);
            r'.mode.Watch? && !r'.flag && (r'.phase.Waiting? || r'.phase.Heartbeat?) && r'.seen == r.seen
  {
    if actions != [] {
      HeartbeatsDeliverNothing(r, log, actions[..|actions| - 1]);
      assert actions[|actions| - 1] in actions;
    }
  }

  function ActAll(r: Reader, log: seq<RuntimeEvent>, actions: seq<Action>): (r': Reader)
  {
    if actions == [] then r
    else Act(ActAll(r, log, actions[..|actions| - 1]), log, actions[|actions| - 1])
  }

  /** The next emit, of any event at all, brings a waiting watcher up to date in one wake-up. */
  lemma NextEmitCatchesUp(consumers: seq<(Option<SessionId>, Option<EventId>)>, steps: seq<Step>,
                          i: nat, event: RuntimeEvent)
    requires i < |consumers| && Run(consumers, steps).readers[i].phase.Waiting?
    ensures var s' := Run(consumers, steps + [Emit(event), At(i, Proceed)]);
            Visible(s'.log, consumers[i].0, consumers[i].1) == Ok(s'.readers[i].seen + Pending(s'.readers[i]))
  {
    var s, mid := Run(consumers, steps), steps + [Emit(event)];
    RunKeepsInv(consumers, steps);
    RunKeepsConsumers(consumers, steps);
    RunStep(consumers, steps, Emit(event), s);
    RunStep(consumers, mid, At(i, Proceed), Run(consumers, mid));
    assert mid + [At(i, Proceed)] == steps + [Emit(event), At(i, Proceed)];
    WakeUpReachesEnd(s, i, event);
  }

  lemma WakeUpReachesEnd(s: System, i: nat, event: RuntimeEvent)
    requires Inv(s) && i < |s.readers| && s.readers[i].phase.Waiting?
    ensures var s' := Apply(Apply(s, Emit(event)), At(i, Proceed));
            Visible(s'.log, s.readers[i].session, s.readers[i].origin)
            == Ok(s'.readers[i].seen + Pending(s'.readers[i]))
  {
    var r, log := Woken(s.readers[i]), Store(s.log, event);
    assert Apply(Apply(s, Emit(event)), At(i, Proceed)).readers[i] == Fetch(r, log);
    StoreKeepsDistinct(s.log, event);
    EmitKeepsInv(s.readers[i], s.log, event);
    FetchReachesEnd(r, log);
  }

  /**
   A run that loses a wake-up: the second event is emitted while the watcher
   hands over the first, `clear()` discards the flag, and the watcher sleeps
   on an event it has not delivered.
   */
  lemma LostWakeUp(first: RuntimeEvent, second: RuntimeEvent)
    requires first.id != second.id
    requires first.kind != STATE_COMMITTED && second.kind != STATE_COMMITTED
    ensures var s := Run([(None, None)],
                         [Emit(first), At(0, Open(Watch)), At(0, Proceed), Emit(second), At(0, Proceed)]);
            && s.readers[0].phase.Waiting? && !s.readers[0].flag
            && s.readers[0].seen == [first]
            && Visible(s.log, None, None) == Ok([first, second])
  {
    var consumers: seq<(Option<SessionId>, Option<EventId>)> := [(None, None)];
    var t3: seq<Step> := [Emit(first), At(0, Open(Watch)), At(0, Proceed)];
    var t4 := t3 + [Emit(second)];
    FirstHandOver(first);
    TwoEventsVisible(first, second);
    RunStep(consumers, t3, Emit(second), OneReader([first], HandingOver(first)));
    assert Store([first], second) == [first, second];
    assert Run(consumers, t4) == OneReader([first, second], Woken(HandingOver(first)));
    RunStep(consumers, t4, At(0, Proceed), OneReader([first, second], Woken(HandingOver(first))));
    assert t4 + [At(0, Proceed)] == [Emit(first), At(0, Open(Watch)), At(0, Proceed), Emit(second), At(0, Proceed)];
  }

  function OneReader(log: seq<RuntimeEvent>, r: Reader): (s: System)
  {
    System(log, [r])
  }

  /** A watcher suspended at its first event. */
  function HandingOver(first: RuntimeEvent): (r: Reader)
  {
    Reader(Watch, None, None, None, Yielding(first, []), false, [first], 1, 1, 0)
  }

  function Connected(): (r: Reader)
  {
    NewReader(None, None).(phase := Reading)
  }

  lemma FirstStored(first: RuntimeEvent)
    ensures Run([(None, None)], [Emit(first)]) == OneReader([first], NewReader(None, None))
  {
    var consumers: seq<(Option<SessionId>, Option<EventId>)> := [(None, None)];
    assert Run(consumers, []) == OneReader([], NewReader(None, None));
    RunStep(consumers, [], Emit(first), OneReader([], NewReader(None, None)));
    assert [] + [Emit(first)] == [Emit(first)];
    assert Store([], first) == [first];
  }

  lemma ThenOpened(first: RuntimeEvent)
    ensures Run([(None, None)], [Emit(first), At(0, Open(Watch))]) == OneReader([first], Connected())
  {
    var consumers: seq<(Option<SessionId>, Option<EventId>)> := [(None, None)];
    FirstStored(first);
    RunStep(consumers, [Emit(first)], At(0, Open(Watch)), OneReader([first], NewReader(None, None)));
    assert [Emit(first)] + [At(0, Open(Watch))] == [Emit(first), At(0, Open(Watch))];
  }

  lemma FirstHandOver(first: RuntimeEvent)
    requires first.kind != STATE_COMMITTED
    ensures Run([(None, None)], [Emit(first), At(0, Open(Watch)), At(0, Proceed)])
         == OneReader([first], HandingOver(first))
  {
    var consumers: seq<(Option<SessionId>, Option<EventId>)> := [(None, None)];
    var t2: seq<Step> := [Emit(first), At(0, Open(Watch))];
    ThenOpened(first);
    RunStep(consumers, t2, At(0, Proceed), OneReader([first], Connected()));
    assert t2 + [At(0, Proceed)] == [Emit(first), At(0, Open(Watch)), At(0, Proceed)];
    FirstFetch(first);
    OneReaderMoves([first], Connected(), Proceed);
  }

  lemma OneReaderMoves(log: seq<RuntimeEvent>, r: Reader, action: Action)
    ensures Apply(OneReader(log, r), At(0, action)) == OneReader(log, Act(r, log, action))
  {
  }

  lemma FirstFetch(first: RuntimeEvent)
    requires first.kind != STATE_COMMITTED
    ensures Fetch(Connected(), [first]) == HandingOver(first)
  {
    OneEventVisible(first);
    assert [first][1..] == [] && [] + [first] == [first];
  }

  lemma OneEventVisible(first: RuntimeEvent)
    requires first.kind != STATE_COMMITTED
    ensures Visible([first], None, None) == Ok([first])
  {
    assert [first][..0] == [];
    assert [] + [first] == [first];
    assert Listed([first]) == [first];
    assert Project([first], None) == [first];
  }

  lemma TwoEventsVisible(first: RuntimeEvent, second: RuntimeEvent)
    requires first.kind != STATE_COMMITTED && second.kind != STATE_COMMITTED
    ensures Visible([first], None, None) == Ok([first])
    ensures Visible([first, second], None, None) == Ok([first, second])
  {
    OneEventVisible(first);
    OneEventVisible(second);
    assert [first, second] == [first] + [second];
    ScopedAppend([first], [second], None);
  }

  // ------------------------------------------------------ one reader, one step

  /** One reader's part in one step. */
  lemma ReaderStep(s: System, step: Step, i: nat)
    requires i < |s.readers|
    ensures var r, r' := s.readers[i], Apply(s, step).readers[i];
            r' == r || r' == Woken(r) || (step.At? && r' == Act(r, s.log, step.action))
  {
  }

  /** How a reader may change: it only gains events, a heartbeat brings none, and reads are dated. */
  ghost predicate Grows(r: Reader, r': Reader, log: seq<RuntimeEvent>) {
    && r.seen <= r'.seen
    && (r'.phase.Heartbeat? && !r.phase.Heartbeat? ==> r'.seen == r.seen)
    && r.fetches <= r'.fetches
    && (r'.fetches == r.fetches ==> r'.fetchedAt == r.fetchedAt)
    && (r'.fetches > r.fetches ==> r'.fetchedAt == |log|)
  }

  lemma FetchGrows(r: Reader, log: seq<RuntimeEvent>)
    ensures Grows(r, Fetch(r, log), log)
  {
  }

  lemma ContinueGrows(r: Reader, log: seq<RuntimeEvent>)
    ensures Grows(r, Continue(r, log), log)
  {
    FetchGrows(r, log);
  }

  lemma PageGrows(r: Reader, log: seq<RuntimeEvent>, limit: Option<int>)
    ensures Grows(r, ReadPage(r, log, limit), log)
  {
  }

  lemma ActGrows(r: Reader, log: seq<RuntimeEvent>, action: Action)
    ensures Grows(r, Act(r, log, action), log)
  {
    match action
    case Proceed => ContinueGrows(r, log);
    case Page(limit) => PageGrows(r, log, limit);
    case _ =>
  }

  lemma StepGrows(s: System, step: Step, i: nat)
    requires i < |s.readers|
    ensures Grows(s.readers[i], Apply(s, step).readers[i], s.log)
  {
    ReaderStep(s, step, i);
    if step.At? {
      ActGrows(s.readers[i], s.log, step.action);
    }
  }

  lemma LastStep(consumers: seq<(Option<SessionId>, Option<EventId>)>, steps: seq<Step>)
    requires steps != []
    ensures Run(consumers, steps) == Apply(Run(consumers, steps[..|steps| - 1]), steps[|steps| - 1])
  {
  }

  lemma EarlierPrefix<T>(s: seq<T>, t: nat)
    requires t < |s|
    ensures s[..|s| - 1][..t] == s[..t]
  {
  }

  // ------------------------------------------------- when readers sleep and beat

  /** What a reader has not been handed is what a read would return now. */
  lemma EmptyReadIff(r: Reader, log: seq<RuntimeEvent>)
    requires Distinct(log) && ReaderInv(r, log)
    requires r.phase.Reading? || r.phase.Sleeping? || r.phase.Waiting?
    ensures Visible(log, r.session, r.cursor) == Ok([]) <==> Visible(log, r.session, r.origin) == Ok(r.seen)
  {
    AppendNothing(r.seen, r.seen);
    ReadFromLastSeen(r, log);
    if Visible(log, r.session, LastId(r.seen, r.origin)).Ok? {
      FirstReadFindsOrigin(r, log);
      RestIsEmptyIff(r.seen, Visible(log, r.session, r.origin).value);
    }
  }

  lemma RestIsEmptyIff<T>(part: seq<T>, all: seq<T>)
    requires part <= all
    ensures all[|part|..] == [] <==> all == part
  {
  }

  /**
   A step of a reader leaves it at a heartbeat if and only if it was asleep and its
   second read returned nothing, or it was a waiting watcher that timed out.
   */
  lemma HeartbeatIff(consumers: seq<(Option<SessionId>, Option<EventId>)>, steps: seq<Step>, i: nat, action: Action)
    requires i < |consumers| && !Run(consumers, steps).readers[i].phase.Heartbeat?
    ensures var s := Run(consumers, steps); var r := s.readers[i];
            Run(consumers, steps + [At(i, action)]).readers[i].phase.Heartbeat? <==>
            || (action == Proceed && r.phase.Sleeping?
                && Visible(s.log, consumers[i].0, consumers[i].1) == Ok(r.seen))
            || (action == Timeout && r.phase.Waiting?)
  {
    var s := Run(consumers, steps);
    RunStep(consumers, steps, At(i, action), s);
    RunKeepsInv(consumers, steps);
    RunKeepsConsumers(consumers, steps);
    if s.readers[i].phase.Sleeping? {
      EmptyReadIff(s.readers[i], s.log);
    }
    ActBeatsIff(s.readers[i], s.log, action);
  }

  lemma ActBeatsIff(r: Reader, log: seq<RuntimeEvent>, action: Action)
    requires !r.phase.Heartbeat? && (r.phase.Waiting? ==> r.mode.Watch?) && (r.phase.Sleeping? ==> r.mode.Poll?)
    ensures Act(r, log, action).phase.Heartbeat? <==>
            || (action == Proceed && r.phase.Sleeping? && Visible(log, r.session, r.cursor) == Ok([]))
            || (action == Timeout && r.phase.Waiting?)
  {
  }

  /** A step puts a reader to sleep if and only if it is a poller whose read at the loop head returned nothing. */
  lemma SleepIff(consumers: seq<(Option<SessionId>, Option<EventId>)>, steps: seq<Step>, i: nat, action: Action)
    requires i < |consumers| && !Run(consumers, steps).readers[i].phase.Sleeping?
    ensures var s := Run(consumers, steps); var r := s.readers[i];
            Run(consumers, steps + [At(i, action)]).readers[i].phase.Sleeping? <==>
            && action == Proceed && r.mode == Poll && r.phase.Reading?
            && Visible(s.log, consumers[i].0, consumers[i].1) == Ok(r.seen)
  {
    var s := Run(consumers, steps);
    RunStep(consumers, steps, At(i, action), s);
    RunKeepsInv(consumers, steps);
    RunKeepsConsumers(consumers, steps);
    if s.readers[i].phase.Reading? {
      EmptyReadIff(s.readers[i], s.log);
    }
    ActSleepsIff(s.readers[i], s.log, action);
  }

  lemma ActSleepsIff(r: Reader, log: seq<RuntimeEvent>, action: Action)
    requires !r.phase.Sleeping? && (r.phase.Waiting? ==> r.mode.Watch?)
    ensures Act(r, log, action).phase.Sleeping? <==>
            action == Proceed && r.mode == Poll && r.phase.Reading? && Visible(log, r.session, r.cursor) == Ok([])
  {
  }

  /** How often steps `from` to the end brought reader `i` into such a phase. */
  function Entered(consumers: seq<(Option<SessionId>, Option<EventId>)>, steps: seq<Step>, from: nat, i: nat,
                   which: Phase -> bool): (n: nat)
    requires from <= |steps| && i < |consumers|
    decreases |steps|
  {
    if from == |steps| then 0
    else
      var init := steps[..|steps| - 1];
      Entered(consumers, init, from, i, which)
      + (if which(Run(consumers, steps).readers[i].phase) && !which(Run(consumers, init).readers[i].phase)
         then 1 else 0)
  }

  /** Reader `i` is only resumed from step `from` on; others do what they like. */
  predicate OnlyResumed(steps: seq<Step>, from: nat, i: nat) {
    forall k :: from <= k < |steps| && steps[k].At? && steps[k].reader == i ==> steps[k].action == Proceed
  }

  const BEATS: Phase -> bool := (p: Phase) => p.Heartbeat?
  const SLEEPS: Phase -> bool := (p: Phase) => p.Sleeping?

  /** Where an idle poller is in its cycle, by what it has done since its last heartbeat but `beats`. */
  ghost predicate InCycle(r: Reader, start: Reader, beats: nat, sleeps: nat) {
    && r.mode == Poll && r.seen == start.seen
    && (r.phase.Heartbeat? || r.phase.Reading? || r.phase.Sleeping?)
    && sleeps == beats + (if r.phase.Sleeping? then 1 else 0)
    && r.fetches == start.fetches + 2 * beats + (if r.phase.Sleeping? then 1 else 0)
  }

  lemma ResumedInCycle(r: Reader, start: Reader, beats: nat, sleeps: nat, log: seq<RuntimeEvent>)
    requires Distinct(log) && ReaderInv(r, log) && r.fetches > 0 && InCycle(r, start, beats, sleeps)
    requires Act(r, log, Proceed).seen == r.seen
    ensures var r' := Act(r, log, Proceed);
            InCycle(r', start, beats + (if r'.phase.Heartbeat? && !r.phase.Heartbeat? then 1 else 0),
                    sleeps + (if r'.phase.Sleeping? && !r.phase.Sleeping? then 1 else 0))
  {
    if !r.phase.Heartbeat? {
      FetchReachesEnd(r, log);
      ReadFromLastSeen(r, log);
    }
  }

  lemma EntersOneMore(consumers: seq<(Option<SessionId>, Option<EventId>)>, steps: seq<Step>, from: nat, i: nat,
                      which: Phase -> bool)
    requires from < |steps| && i < |consumers|
    ensures var init := steps[..|steps| - 1];
            Entered(consumers, steps, from, i, which)
            == Entered(consumers, init, from, i, which)
             + (if which(Run(consumers, steps).readers[i].phase) && !which(Run(consumers, init).readers[i].phase)
                then 1 else 0)
  {
  }

  lemma ActedOn(s: System, step: Step, i: nat)
    requires i < |s.readers| && step.At? && step.reader == i
    ensures Apply(s, step).readers[i] == Act(s.readers[i], s.log, step.action)
  {
  }

  lemma NotActedOn(s: System, step: Step, i: nat)
    requires i < |s.readers| && (step.At? ==> step.reader != i)
    ensures Apply(s, step).readers[i] == s.readers[i] || Apply(s, step).readers[i] == Woken(s.readers[i])
  {
  }

  /**
   From one heartbeat of a poller on, while it is only resumed and nothing is
   delivered, whatever is emitted and whatever others do: it sleeps once and reads
   twice for every further heartbeat.
   */
  lemma {:induction false} IdlePollerCycle(consumers: seq<(Option<SessionId>, Option<EventId>)>, steps: seq<Step>,
                                           from: nat, i: nat)
    requires from <= |steps| && i < |consumers| && OnlyResumed(steps, from, i)
    requires var start := Run(consumers, steps[..from]).readers[i]; start.mode == Poll && start.phase.Heartbeat?
    requires Run(consumers, steps).readers[i].seen == Run(consumers, steps[..from]).readers[i].seen
    ensures InCycle(Run(consumers, steps).readers[i], Run(consumers, steps[..from]).readers[i],
                    Entered(consumers, steps, from, i, BEATS), Entered(consumers, steps, from, i, SLEEPS))
    decreases |steps|
  {
    if from == |steps| {
      AppendNothing(steps, steps);
    } else {
      var init := steps[..|steps| - 1];
      assert init[..from] == steps[..from];
      SeenSince(consumers, init, from, i);
      LastStep(consumers, steps);
      StepGrows(Run(consumers, init), steps[|steps| - 1], i);
      IdlePollerCycle(consumers, init, from, i);
      RunKeepsInv(consumers, init);
      OneStepInCycle(consumers, steps, from, i);
    }
  }

  lemma {:induction false} SeenSince(consumers: seq<(Option<SessionId>, Option<EventId>)>, steps: seq<Step>,
                                     from: nat, i: nat)
    requires from <= |steps| && i < |consumers|
    ensures Run(consumers, steps[..from]).readers[i].seen <= Run(consumers, steps).readers[i].seen
    ensures Run(consumers, steps[..from]).readers[i].fetches <= Run(consumers, steps).readers[i].fetches
    decreases |steps|
  {
    if from == |steps| {
      AppendNothing(steps, steps);
    } else {
      var init := steps[..|steps| - 1];
      assert init[..from] == steps[..from];
      SeenSince(consumers, init, from, i);
      LastStep(consumers, steps);
      StepGrows(Run(consumers, init), steps[|steps| - 1], i);
    }
  }

  lemma OneStepInCycle(consumers: seq<(Option<SessionId>, Option<EventId>)>, steps: seq<Step>, from: nat, i: nat)
    requires from < |steps| && i < |consumers| && OnlyResumed(steps, from, i)
    requires Run(consumers, steps[..from]).readers[i].phase.Heartbeat?
    requires var init := steps[..|steps| - 1];
             && Inv(Run(consumers, init))
             && Run(consumers, steps).readers[i].seen == Run(consumers, init).readers[i].seen
             && InCycle(Run(consumers, init).readers[i], Run(consumers, steps[..from]).readers[i],
                        Entered(consumers, init, from, i, BEATS), Entered(consumers, init, from, i, SLEEPS))
    ensures InCycle(Run(consumers, steps).readers[i], Run(consumers, steps[..from]).readers[i],
                    Entered(consumers, steps, from, i, BEATS), Entered(consumers, steps, from, i, SLEEPS))
  {
    var init, last := steps[..|steps| - 1], steps[|steps| - 1];
    var s, start := Run(consumers, init), Run(consumers, steps[..from]).readers[i];
    EntersOneMore(consumers, steps, from, i, BEATS);
    EntersOneMore(consumers, steps, from, i, SLEEPS);
    LastStep(consumers, steps);
    if last.At? && last.reader == i {
      ActedOn(s, last, i);
      AtHeartbeatWasServed(consumers, steps[..from], i);
      ResumedInCycle(s.readers[i], start, Entered(consumers, init, from, i, BEATS),
                     Entered(consumers, init, from, i, SLEEPS), s.log);
    } else {
      NotActedOn(s, last, i);
    }
  }

  lemma AtHeartbeatWasServed(consumers: seq<(Option<SessionId>, Option<EventId>)>, steps: seq<Step>, i: nat)
    requires i < |consumers| && Run(consumers, steps).readers[i].phase.Heartbeat?
    ensures Run(consumers, steps).readers[i].fetches > 0
  {
    RunKeepsInv(consumers, steps);
    assert ReaderInv(Run(consumers, steps).readers[i], Run(consumers, steps).log);
  }

  /** Between two heartbeats of a poller with no delivery: one sleep, two reads. */
  lemma BetweenHeartbeats(consumers: seq<(Option<SessionId>, Option<EventId>)>, steps: seq<Step>, from: nat, i: nat)
    requires from <= |steps| && i < |consumers| && OnlyResumed(steps, from, i)
    requires var start := Run(consumers, steps[..from]).readers[i]; start.mode == Poll && start.phase.Heartbeat?
    requires Run(consumers, steps).readers[i].seen == Run(consumers, steps[..from]).readers[i].seen
    requires Run(consumers, steps).readers[i].phase.Heartbeat? && Entered(consumers, steps, from, i, BEATS) == 1
    ensures Entered(consumers, steps, from, i, SLEEPS) == 1
    ensures Run(consumers, steps).readers[i].fetches == Run(consumers, steps[..from]).readers[i].fetches + 2
  {
    IdlePollerCycle(consumers, steps, from, i);
  }

  // -------------------------------------------------------- paging to the end

  /** The pages of a client that asks for `k` events at a time until a page is empty. */
  function Pages(log: seq<RuntimeEvent>, session: Option<SessionId>, origin: Option<EventId>,
                 seen: seq<RuntimeEvent>, k: int): (r: seq<seq<RuntimeEvent>>)
    requires Distinct(log) && k >= 1
    requires Visible(log, session, origin).Ok? && seen <= Visible(log, session, origin).value
    decreases |Visible(log, session, origin).value| - |seen|
  {
    PageIsNextStretch(log, session, origin, seen, k);
    var page := Filtered(Listed(log), session, LastId(seen, origin), Some(k)).value;
    if page == [] then [] else [page] + Pages(log, session, origin, seen + page, k)
  }

  lemma PageIsNextStretch(log: seq<RuntimeEvent>, session: Option<SessionId>, origin: Option<EventId>,
                          seen: seq<RuntimeEvent>, k: int)
    requires Distinct(log) && k >= 1
    requires Visible(log, session, origin).Ok? && seen <= Visible(log, session, origin).value
    ensures var all := Visible(log, session, origin).value;
            var page := FirstN(all[|seen|..], k);
            && Filtered(Listed(log), session, LastId(seen, origin), Some(k)) == Ok(page)
            && seen + page <= all
            && |page| == (if |all| - |seen| <= k then |all| - |seen| else k)
            && (page == [] ==> seen == all)
  {
    ResumeContinues(log, session, origin, seen);
  }

  /** `items` cut into stretches of `k`, the last one possibly shorter. */
  function Chunks<T>(items: seq<T>, k: int): (r: seq<seq<T>>)
    requires k >= 1
    decreases |items|
  {
    if items == [] then [] else [FirstN(items, k)] + Chunks(items[|FirstN(items, k)|..], k)
  }

  lemma {:induction false} ChunksComplete<T>(items: seq<T>, k: int)
    requires k >= 1
    ensures Concat(Chunks(items, k)) == items
    ensures |Chunks(items, k)| == CeilDiv(|items|, k)
    ensures forall c :: c in Chunks(items, k) ==> 0 < |c| <= k
    decreases |items|
  {
    if items != [] {
      var first := FirstN(items, k);
      ChunksComplete(items[|first|..], k);
      ConcatFirst(first, Chunks(items[|first|..], k));
      assert first + items[|first|..] == items;
    }
  }

  lemma {:induction false} PagesAreChunks(log: seq<RuntimeEvent>, session: Option<SessionId>,
                                          origin: Option<EventId>, seen: seq<RuntimeEvent>, k: int,
                                          all: seq<RuntimeEvent>)
    requires Distinct(log) && k >= 1
    requires Visible(log, session, origin) == Ok(all) && seen <= all
    ensures Pages(log, session, origin, seen, k) == Chunks(all[|seen|..], k)
    decreases |all| - |seen|
  {
    PageIsNextStretch(log, session, origin, seen, k);
    var page := FirstN(all[|seen|..], k);
    if page != [] {
      PagesAreChunks(log, session, origin, seen + page, k, all);
      assert all[|seen|..][|page|..] == all[|seen + page|..];
    }
  }

  /** With no growth, paging reaches every event, after ceil(n / k) non-empty pages. */
  lemma PagingIsComplete(log: seq<RuntimeEvent>, session: Option<SessionId>, origin: Option<EventId>, k: int)
    requires Distinct(log) && k >= 1
    requires Visible(log, session, origin).Ok?
    ensures var all, pages := Visible(log, session, origin).value, Pages(log, session, origin, [], k);
            && Concat(pages) == all
            && |pages| == CeilDiv(|all|, k)
            && (forall p :: p in pages ==> 0 < |p| <= k)
  {
    var all := Visible(log, session, origin).value;
    PagesAreChunks(log, session, origin, [], k, all);
    assert all[0..] == all;
    ChunksComplete(all, k);
  }

  lemma ConcatFirst<T>(first: seq<T>, rest: seq<seq<T>>)
    ensures Concat([first] + rest) == first + Concat(rest)
  {
    assert ([first] + rest)[1..] == rest;
  }

  /** ceil(n / k), counting full pages off one by one. */
  function CeilDiv(n: nat, k: int): (pages: nat)
    requires k >= 1
    ensures k * pages - k < n <= k * pages
  {
    if n == 0 then 0 else if n <= k then 1 else 1 + CeilDiv(n - k, k)
  }
}
