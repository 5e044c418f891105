/**
 A run in which a page shows an event twice: one event, a watcher that waits
 through as many heartbeats as the page remembers ids, and a reconnect.
 */
module BrowserIdle {
  import opened Prelude
  import opened EventLog
  import opened EventReaders
  import opened BrowserStream
  import opened BrowserReconnects
  import opened BrowserPages

  /** Two connections of one page: same session, both from the start. */
  function TwoConsumers(session: Option<SessionId>): (consumers: Consumers)
  {
    [(session, None), (session, None)]
  }

  /** The first connection: the event, its hand-over, the wait, and `k` heartbeats. */
  function Idle(event: RuntimeEvent, k: nat): (steps: seq<Step>)
    ensures |steps| == 4 + 2 * k
  {
    if k == 0 then [Emit(event)] + [At(0, Open(Watch))] + [At(0, Proceed)] + [At(0, Proceed)]
    else Idle(event, k - 1) + [At(0, Timeout)] + [At(0, Proceed)]
  }

  /** And then the second one. */
  function ThenReconnect(event: RuntimeEvent, k: nat): (steps: seq<Step>)
  {
    Idle(event, k) + [At(1, Open(Watch))] + [At(1, Proceed)]
  }

  function Beats(k: nat): (tags: seq<Tag<EventId>>)
    ensures |tags| == k
    ensures forall j :: 0 <= j < k ==> tags[j] == OfBeat(4 + 2 * j)
  {
    seq(k, j requires 0 <= j < k => OfBeat(4 + 2 * j))
  }

  // -------------------------------------------------------------- the readers

  function Opened(session: Option<SessionId>): (r: Reader)
  {
    NewReader(session, None).(phase := Reading)
  }

  function Served(session: Option<SessionId>, event: RuntimeEvent): (r: Reader)
  {
    Reader(Watch, session, None, None, Yielding(event, []), false, [event], 1, 1, 0)
  }

  function AtRest(session: Option<SessionId>, event: RuntimeEvent): (r: Reader)
  {
    Reader(Watch, session, None, Some(event.id), Waiting, false, [event], 1, 1, 1)
  }

  function Pair(event: RuntimeEvent, first: Reader, second: Reader): (s: System)
  {
    System([event], [first, second])
  }

  predicate Shows(event: RuntimeEvent, session: Option<SessionId>) {
    event.kind != STATE_COMMITTED && InSession(event, session)
  }

  lemma OneVisible(event: RuntimeEvent, session: Option<SessionId>)
    requires Shows(event, session)
    ensures Visible([event], session, None) == Ok([event])
  {
    assert [event][..0] == [] && [] + [event] == [event];
    assert Listed([event]) == [event];
    assert Project([event], session) == [event];
  }

  lemma Steps(session: Option<SessionId>, event: RuntimeEvent)
    requires Shows(event, session)
    ensures Act(NewReader(session, None), [event], Open(Watch)) == Opened(session)
    ensures Act(Opened(session), [event], Proceed) == Served(session, event)
    ensures Act(Served(session, event), [event], Proceed) == AtRest(session, event)
    ensures Act(AtRest(session, event), [event], Timeout) == AtRest(session, event).(phase := Heartbeat)
    ensures Act(AtRest(session, event).(phase := Heartbeat), [event], Proceed) == AtRest(session, event)
  {
    OneVisible(event, session);
    assert [event][1..] == [] && [] + [event] == [event];
  }

  // --------------------------------------------------------- one step of a run

  /** The run so far has led here, and this is what was sent. */
  ghost predicate Led(session: Option<SessionId>, steps: seq<Step>, s: System,
                      first: seq<Frame<EventId>>, second: seq<Frame<EventId>>) {
    && Run(TwoConsumers(session), steps) == s
    && |s.readers| == 2
    && Sent(TwoConsumers(session), steps, 0) == first
    && Sent(TwoConsumers(session), steps, 1) == second
  }

  lemma OneStep(session: Option<SessionId>, steps: seq<Step>, s: System, step: Step,
                first: seq<Frame<EventId>>, second: seq<Frame<EventId>>)
    requires Led(session, steps, s, first, second)
    ensures var s' := Apply(s, step);
            Led(session, steps + [step], s', first + Put(s.readers[0], s'.readers[0], |steps|),
                second + Put(s.readers[1], s'.readers[1], |steps|))
  {
    assert (steps + [step])[..|steps + [step]| - 1] == steps;
  }

  lemma NothingPut(r: Reader, serial: nat)
    ensures Put(r, r, serial) == []
  {
    assert r.seen[|r.seen|..] == [];
  }

  /** A step of the first reader. */
  lemma FirstMoves(session: Option<SessionId>, steps: seq<Step>, event: RuntimeEvent, r: Reader, other: Reader,
                   action: Action, first: seq<Frame<EventId>>, second: seq<Frame<EventId>>)
    requires Led(session, steps, Pair(event, r, other), first, second)
    ensures var r' := Act(r, [event], action);
            Led(session, steps + [At(0, action)], Pair(event, r', other), first + Put(r, r', |steps|), second)
  {
    OneStep(session, steps, Pair(event, r, other), At(0, action), first, second);
    NothingPut(other, |steps|);
    AppendNothing(second, second);
    assert Apply(Pair(event, r, other), At(0, action)) == Pair(event, Act(r, [event], action), other);
  }

  lemma SecondMoves(session: Option<SessionId>, steps: seq<Step>, event: RuntimeEvent, r: Reader, other: Reader,
                    action: Action, first: seq<Frame<EventId>>, second: seq<Frame<EventId>>)
    requires Led(session, steps, Pair(event, other, r), first, second)
    ensures var r' := Act(r, [event], action);
            Led(session, steps + [At(1, action)], Pair(event, other, r'), first, second + Put(r, r', |steps|))
  {
    OneStep(session, steps, Pair(event, other, r), At(1, action), first, second);
    NothingPut(other, |steps|);
    AppendNothing(first, first);
    assert Apply(Pair(event, other, r), At(1, action)) == Pair(event, other, Act(r, [event], action));
  }

  // ---------------------------------------------------------------- the run

  function EventFrame(event: RuntimeEvent): (f: Frame<EventId>)
  {
    Frame(OfEvent(event.id), event.kind)
  }

  function BeatFrames(k: nat): (frames: seq<Frame<EventId>>)
    ensures |frames| == k
    ensures forall j :: 0 <= j < k ==> frames[j] == Frame(OfBeat(4 + 2 * j), HEARTBEAT)
  {
    seq(k, j requires 0 <= j < k => Frame(OfBeat(4 + 2 * j), HEARTBEAT))
  }

  lemma NothingYet(session: Option<SessionId>)
    ensures Led(session, [], System([], [NewReader(session, None), NewReader(session, None)]), [], [])
  {
    assert Run(TwoConsumers(session), []).readers == [NewReader(session, None), NewReader(session, None)];
  }

  lemma Emitted(session: Option<SessionId>, event: RuntimeEvent)
    ensures Led(session, [Emit(event)], Pair(event, NewReader(session, None), NewReader(session, None)), [], [])
  {
    var r := NewReader(session, None);
    NothingYet(session);
    OneStep(session, [], System([], [r, r]), Emit(event), [], []);
    NothingPut(r, 0);
    assert [] + [Emit(event)] == [Emit(event)];
    assert Apply(System([], [r, r]), Emit(event)) == Pair(event, r, r) by {
      assert Store([], event) == [event];
    }
  }

  /** What handing an event over puts on the stream. */
  lemma PutEvent(session: Option<SessionId>, event: RuntimeEvent, serial: nat)
    ensures Put(Opened(session), Served(session, event), serial) == [EventFrame(event)]
    ensures Put(NewReader(session, None), Opened(session), serial) == []
    ensures Put(Served(session, event), AtRest(session, event), serial) == []
  {
    assert [event][0..] == [event] && [event][1..] == [];
  }

  lemma PutBeat(session: Option<SessionId>, event: RuntimeEvent, serial: nat)
    ensures var r := AtRest(session, event); var b := r.(phase := Heartbeat);
            Put(r, b, serial) == [Frame(OfBeat(serial), HEARTBEAT)] && Put(b, r, serial) == []
  {
    assert [event][1..] == [];
  }

  lemma FirstServed(session: Option<SessionId>, event: RuntimeEvent)
    requires Shows(event, session)
    ensures Led(session, Idle(event, 0), Pair(event, AtRest(session, event), NewReader(session, None)),
                [EventFrame(event)], [])
  {
    var other := NewReader(session, None);
    var t1: seq<Step> := [Emit(event)];
    Emitted(session, event);
    Steps(session, event);
    FirstMoves(session, t1, event, other, other, Open(Watch), [], []);
    PutEvent(session, event, 1);
    FirstMoves(session, t1 + [At(0, Open(Watch))], event, Opened(session), other, Proceed, [], []);
    PutEvent(session, event, 2);
    FirstMoves(session, t1 + [At(0, Open(Watch))] + [At(0, Proceed)], event, Served(session, event), other, Proceed,
               [EventFrame(event)], []);
    PutEvent(session, event, 3);
  }

  /** A timeout and the return to waiting. */
  lemma HeartbeatCycle(session: Option<SessionId>, event: RuntimeEvent, steps: seq<Step>, sent: seq<Frame<EventId>>)
    requires Shows(event, session)
    requires Led(session, steps, Pair(event, AtRest(session, event), NewReader(session, None)), sent, [])
    ensures Led(session, steps + [At(0, Timeout)] + [At(0, Proceed)],
                Pair(event, AtRest(session, event), NewReader(session, None)),
                sent + [Frame(OfBeat(|steps|), HEARTBEAT)], [])
  {
    var r, other := AtRest(session, event), NewReader(session, None);
    var b, beat := r.(phase := Heartbeat), [Frame(OfBeat(|steps|), HEARTBEAT)];
    Steps(session, event);
    FirstMoves(session, steps, event, r, other, Timeout, sent, []);
    PutBeat(session, event, |steps|);
    FirstMoves(session, steps + [At(0, Timeout)], event, b, other, Proceed, sent + beat, []);
    PutBeat(session, event, |steps| + 1);
    AppendNothing(sent + beat, beat);
  }

  lemma OneMoreBeat(event: RuntimeEvent, k: nat)
    ensures [EventFrame(event)] + BeatFrames(k) + [Frame(OfBeat(4 + 2 * k), HEARTBEAT)]
         == [EventFrame(event)] + BeatFrames(k + 1)
  {
    var beat: seq<Frame<EventId>> := [Frame(OfBeat(4 + 2 * k), HEARTBEAT)];
    assert BeatFrames(k) + beat == BeatFrames(k + 1);
    Associative([EventFrame(event)], BeatFrames(k), beat);
  }

  /** Where the first connection stands after `k` heartbeats. */
  ghost predicate IdleLed(session: Option<SessionId>, event: RuntimeEvent, k: nat) {
    Led(session, Idle(event, k), Pair(event, AtRest(session, event), NewReader(session, None)),
        [EventFrame(event)] + BeatFrames(k), [])
  }

  lemma IdleStart(session: Option<SessionId>, event: RuntimeEvent)
    requires Shows(event, session)
    ensures IdleLed(session, event, 0)
  {
    FirstServed(session, event);
    assert [EventFrame(event)] + BeatFrames(0) == [EventFrame(event)];
  }

  lemma IdleNext(session: Option<SessionId>, event: RuntimeEvent, k: nat)
    requires Shows(event, session) && IdleLed(session, event, k)
    ensures IdleLed(session, event, k + 1)
  {
    HeartbeatCycle(session, event, Idle(event, k), [EventFrame(event)] + BeatFrames(k));
    OneMoreBeat(event, k);
  }

  lemma {:induction false} IdleRun(session: Option<SessionId>, event: RuntimeEvent, k: nat)
    requires Shows(event, session)
    ensures IdleLed(session, event, k)
  {
    if k == 0 {
      IdleStart(session, event);
    } else {
      IdleRun(session, event, k - 1);
      IdleNext(session, event, k - 1);
    }
  }

  lemma ReconnectedRun(session: Option<SessionId>, event: RuntimeEvent, k: nat)
    requires Shows(event, session)
    ensures Led(session, ThenReconnect(event, k), Pair(event, AtRest(session, event), Served(session, event)),
                [EventFrame(event)] + BeatFrames(k), [EventFrame(event)])
  {
    var sent := [EventFrame(event)] + BeatFrames(k);
    IdleRun(session, event, k);
    Steps(session, event);
    SecondMoves(session, Idle(event, k), event, NewReader(session, None), AtRest(session, event), Open(Watch),
                sent, []);
    PutEvent(session, event, 4 + 2 * k);
    SecondMoves(session, Idle(event, k) + [At(1, Open(Watch))], event, Opened(session), AtRest(session, event), Proceed,
                sent, []);
    PutEvent(session, event, 5 + 2 * k);
  }

  // ---------------------------------------------------------------- the page

  function TwoConnections(event: RuntimeEvent, k: nat): (conns: seq<Connection>)
  {
    [Connection(0, |Idle(event, k)|), Connection(1, |ThenReconnect(event, k)|)]
  }

  lemma ReconnectPrefix(event: RuntimeEvent, k: nat)
    ensures ThenReconnect(event, k)[..|Idle(event, k)|] == Idle(event, k)
    ensures |ThenReconnect(event, k)| == |Idle(event, k)| + 2
  {
  }

  lemma IsOnePage(session: Option<SessionId>, event: RuntimeEvent, k: nat)
    requires Shows(event, session)
    ensures OnePage(TwoConsumers(session), ThenReconnect(event, k), session, TwoConnections(event, k))
  {
    var steps, conns := ThenReconnect(event, k), TwoConnections(event, k);
    IdleRun(session, event, k);
    ReconnectPrefix(event, k);
    assert steps[..0] == [];
  }

  lemma PartsOfPage(session: Option<SessionId>, event: RuntimeEvent, k: nat)
    requires Shows(event, session)
    requires InRange(TwoConsumers(session), ThenReconnect(event, k), TwoConnections(event, k))
    ensures Parts(TwoConsumers(session), ThenReconnect(event, k), TwoConnections(event, k), ALL)
         == [[OfEvent(event.id)] + Beats(k), [OfEvent(event.id)]]
  {
    FirstPart(session, event, k);
    SecondPart(session, event, k);
  }

  lemma FirstPart(session: Option<SessionId>, event: RuntimeEvent, k: nat)
    requires Shows(event, session)
    ensures var steps := ThenReconnect(event, k)[..|Idle(event, k)|];
            Handled(Sent(TwoConsumers(session), steps, 0), ALL) == [OfEvent(event.id)] + Beats(k)
  {
    IdleRun(session, event, k);
    ReconnectPrefix(event, k);
    TagsOfFirst(event, k);
  }

  lemma TagsOfFirst(event: RuntimeEvent, k: nat)
    ensures Handled([EventFrame(event)] + BeatFrames(k), ALL) == [OfEvent(event.id)] + Beats(k)
  {
    AllHandled([EventFrame(event)] + BeatFrames(k), ALL);
  }

  lemma SecondPart(session: Option<SessionId>, event: RuntimeEvent, k: nat)
    requires Shows(event, session)
    ensures var steps := ThenReconnect(event, k);
            Handled(Sent(TwoConsumers(session), steps[..|steps|], 1), ALL) == [OfEvent(event.id)]
  {
    ReconnectedRun(session, event, k);
    AppendNothing(ThenReconnect(event, k), ThenReconnect(event, k));
    AllHandled([EventFrame(event)], ALL);
  }

  /**
   For every size of the set: a run with one event in which a page, after as
   many heartbeats as it remembers ids and one reconnect, shows the event twice.
   */
  lemma IdleSessionShowsEventTwice(session: Option<SessionId>, event: RuntimeEvent, cap: nat)
    requires Shows(event, session)
    ensures OnePage(TwoConsumers(session), ThenReconnect(event, cap), session, TwoConnections(event, cap))
    ensures var all := Joined(Parts(TwoConsumers(session), ThenReconnect(event, cap), TwoConnections(event, cap), ALL));
            && Run(TwoConsumers(session), ThenReconnect(event, cap)).log == [event]
            && Bounded(all, cap) == [OfEvent(event.id)] + Beats(cap) + [OfEvent(event.id)]
            && Unbounded(all) == [OfEvent(event.id)] + Beats(cap)
  {
    var e: Tag<EventId> := OfEvent(event.id);
    IsOnePage(session, event, cap);
    PartsOfPage(session, event, cap);
    ReconnectedRun(session, event, cap);
    JoinTwo([e] + Beats(cap), [e]);
    IdleSessionIsShownTwice(event.id, Beats(cap), cap);
  }

  lemma JoinTwo<T>(a: seq<T>, b: seq<T>)
    ensures Joined([a, b]) == a + b
  {
    assert [a, b][..1] == [a] && [a][..0] == [];
    assert Joined([a]) == [] + a == a;
  }
}
