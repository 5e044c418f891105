/**
 The two generators as objects.  `watch_events` registers a wake flag with the
 sink, clears it before every wait and removes it in its `finally` block;
 `poll_event_reader` only re-reads.  Each method runs the generator from one
 suspension point to the next and is proved to take the step of `EventReaders`.
 */
module EventGenerators {
  import opened Prelude
  import opened EventLog
  import opened EventReaders

  /** `list.remove`: drop the first occurrence. */
  function Removed(flags: seq<WakeFlag>, flag: WakeFlag): (r: seq<WakeFlag>)
    ensures forall f :: f in r ==> f in flags
    ensures forall f :: f in flags && f != flag ==> f in r
  {
    if flags == [] then []
    else if flags[0] == flag then flags[1..]
    else [flags[0]] + Removed(flags[1..], flag)
  }

  class EventWatch {
    const sink: InMemoryEventSink
    const session: Option<SessionId>
    const origin: Option<EventId>
    var cursor: Option<EventId>
    var phase: Phase
    var subscriber: WakeFlag?
    ghost var seen: seq<RuntimeEvent>
    ghost var fetches: nat
    ghost var fetchedAt: nat
    ghost var clearedAt: nat

    ghost function State(): (r: Reader)
      reads this, subscriber
    {
      Reader(Watch, session, origin, cursor, phase, subscriber != null && subscriber.isSet,
             seen, fetches, fetchedAt, clearedAt)
    }

    /** Registered with the sink exactly while suspended after the first read. */
    ghost predicate Valid()
      reads this, sink, subscriber
    {
      && (subscriber != null <==> Subscribed(State()))
      && (subscriber != null ==> subscriber in sink.subscribers)
      && !phase.Sleeping?
    }

    constructor (sink: InMemoryEventSink, session: Option<SessionId>, after: Option<EventId>)
      ensures this.sink == sink && Valid()
      ensures State() == Act(NewReader(session, after), sink.events, Open(Watch))
    {
      this.sink, this.session, this.origin, this.cursor := sink, session, after, after;
      phase, subscriber := Reading, null;
      seen, fetches, fetchedAt, clearedAt := [], 0, 0, 0;
    }

    /** The body of `for event in batch: yield event`, up to the first yield. */
    method HandOverOrWait(batch: seq<RuntimeEvent>)
      requires subscriber != null
      modifies this, subscriber
      ensures subscriber == old(subscriber)
      ensures State() == if batch != [] then HandOver(old(State()), batch) else Rest(old(State()), sink.events)
    {
      if batch != [] {
        seen := seen + [batch[0]];
        phase := Yielding(batch[0], batch[1..]);
      } else {
        subscriber.isSet := false;
        phase := Waiting;
        clearedAt := |sink.events|;
      }
    }

    method Unsubscribe()
      requires subscriber != null
      modifies this`subscriber, sink`subscribers
      ensures subscriber == null && sink.subscribers == Removed(old(sink.subscribers), old(subscriber))
    {
      sink.subscribers := Removed(sink.subscribers, subscriber);
      subscriber := null;
    }

    /** `_filter_existing` and what follows it up to the next suspension. */
    method ReadOn()
      requires subscriber != null && subscriber in sink.subscribers
      modifies this, subscriber, sink`subscribers
      ensures Valid()
      ensures State() == Fetch(old(State()), sink.events).(flag := State().flag)
      ensures Subscribed(State()) ==> State() == Fetch(old(State()), sink.events)
      ensures State().phase.Failed? ==> sink.subscribers == Removed(old(sink.subscribers), old(subscriber))
      ensures !State().phase.Failed? ==> subscriber == old(subscriber) && sink.subscribers == old(sink.subscribers)
    {
      var result := sink.ListEvents(session, cursor, None);
      match result
      case Err(_) =>
        phase := Failed;
        Unsubscribe();
      case Ok(batch) =>
        fetches := fetches + 1;
        fetchedAt := |sink.events|;
        HandOverOrWait(batch);
    }

    /** Resume the generator: first call, next event, wake-up, or after a heartbeat. */
    method Next()
      requires Valid()
      modifies this, subscriber, sink`subscribers
      ensures Valid()
      ensures State() == Act(old(State()), sink.events, Proceed).(flag := State().flag)
      ensures Subscribed(State()) ==> State() == Act(old(State()), sink.events, Proceed)
    {
      match phase
      case Reading =>
        subscriber := new WakeFlag();
        sink.subscribers := sink.subscribers + [subscriber];
        ReadOn();
      case Waiting =>
        if subscriber.isSet {
          ReadOn();
        }
      case Yielding(current, rest) =>
        cursor := Some(current.id);
        HandOverOrWait(rest);
      case Heartbeat =>
        HandOverOrWait([]);
      case _ =>
    }

    /** The wait times out and the generator yields a heartbeat. */
    method TimeOut()
      requires Valid()
      modifies this`phase
      ensures Valid() && State() == Act(old(State()), sink.events, Timeout)
    {
      if phase.Waiting? {
        phase := Heartbeat;
      }
    }

    /** `aclose()` or cancellation: the `finally` block unregisters the flag. */
    method Finish()
      requires Valid()
      modifies this, sink`subscribers
      ensures Valid() && subscriber == null
      ensures State() == Act(old(State()), sink.events, Close).(flag := false)
      ensures old(subscriber) == null ==> sink.subscribers == old(sink.subscribers)
      ensures old(subscriber) != null ==> sink.subscribers == Removed(old(sink.subscribers), old(subscriber))
    {
      if subscriber != null {
        Unsubscribe();
      }
      if !phase.Failed? && !phase.Idle? {
        phase := Idle;
      }
    }

    /** An emit anywhere in the program wakes this watcher: the emit step of the protocol. */
    method ObserveEmit(event: RuntimeEvent)
      requires Valid() && sink.Valid()
      modifies sink`events, sink`eventIds, sink.subscribers
      ensures Valid() && sink.Valid() && sink.events == Store(old(sink.events), event)
      ensures State() == Woken(old(State()))
    {
      sink.Emit(event);
    }
  }

  class EventPoll {
    const reader: InMemoryEventSink
    const session: Option<SessionId>
    const origin: Option<EventId>
    var cursor: Option<EventId>
    var phase: Phase
    ghost var seen: seq<RuntimeEvent>
    ghost var fetches: nat
    ghost var fetchedAt: nat

    ghost function State(): (r: Reader)
      reads this
    {
      Reader(Poll, session, origin, cursor, phase, false, seen, fetches, fetchedAt, 0)
    }

    constructor (reader: InMemoryEventSink, session: Option<SessionId>, after: Option<EventId>)
      ensures this.reader == reader
      ensures State() == Act(NewReader(session, after), reader.events, Open(Poll))
    {
      this.reader, this.session, this.origin, this.cursor := reader, session, after, after;
      phase := Reading;
      seen, fetches, fetchedAt := [], 0, 0;
    }

    /** Resume the generator up to its next suspension: a yield, or one of its two reads. */
    method Next()
      requires !phase.Waiting?
      modifies this
      ensures !phase.Waiting? && State() == Act(old(State()), reader.events, Proceed)
      ensures phase.Heartbeat? ==> old(phase).Sleeping?
      ensures phase.Sleeping? ==> old(phase).Reading?
    {
      match phase
      case Yielding(current, rest) =>
        cursor := Some(current.id);
        if rest != [] {
          seen := seen + [rest[0]];
          phase := Yielding(rest[0], rest[1..]);
        } else {
          phase := Reading;
        }
      case Heartbeat =>
        phase := Reading;
      case Reading =>
        Read(Sleeping);
      case Sleeping =>
        Read(Heartbeat);
      case _ =>
    }

    /** One `list_events` call; an empty answer leads to `whenEmpty`. */
    method Read(whenEmpty: Phase)
      requires (phase.Reading? && whenEmpty.Sleeping?) || (phase.Sleeping? && whenEmpty.Heartbeat?)
      modifies this
      ensures !phase.Waiting? && State() == Fetch(old(State()), reader.events)
      ensures Visible(reader.events, session, cursor) == Ok([]) ==> phase == whenEmpty && seen == old(seen)
      ensures Visible(reader.events, session, cursor) != Ok([]) ==> phase.Failed? || phase.Yielding?
    {
      var result := reader.ListEvents(session, cursor, None);
      match result
      case Err(_) =>
        phase := Failed;
      case Ok(events) =>
        fetches := fetches + 1;
        fetchedAt := |reader.events|;
        if events != [] {
          seen := seen + [events[0]];
          phase := Yielding(events[0], events[1..]);
        } else {
          phase := whenEmpty;
        }
    }
  }
}
