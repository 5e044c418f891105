/**
 The append-only event log of `InMemoryEventSink` and the cursor filter every
 reader goes through.  An event is what the filter looks at (id, type, session)
 and an opaque `data`; times, goal, task and action ids play no part here.
 */
module EventLog {
  import opened Prelude

  type EventId = string
  type SessionId = string

  datatype RuntimeEvent = RuntimeEvent(id: EventId, kind: string, sessionId: SessionId, data: string)

  datatype ReadError = InvalidLimit(limit: int) | CursorNotFound(cursor: EventId)

  type Batch = Result<seq<RuntimeEvent>, ReadError>

  const STATE_COMMITTED := "SessionStateCommitted"

  // ------------------------------------------------------------------ storing

  predicate HasId(log: seq<RuntimeEvent>, id: EventId) {
    exists e :: e in log && e.id == id
  }

  ghost predicate Distinct(log: seq<RuntimeEvent>) {
    forall i, j :: 0 <= i < j < |log| ==> log[i].id != log[j].id
  }

  function Store(log: seq<RuntimeEvent>, event: RuntimeEvent): (r: seq<RuntimeEvent>)
  {
    if HasId(log, event.id) then log else log + [event]
  }

  /** The log after a whole history of `emit` calls on an empty sink. */
  function StoreAll(emits: seq<RuntimeEvent>): (r: seq<RuntimeEvent>)
  {
    if emits == [] then [] else Store(StoreAll(emits[..|emits| - 1]), emits[|emits| - 1])
  }

  /** Reference definition, reading the history from the front. */
  function Without(emits: seq<RuntimeEvent>, id: EventId): (r: seq<RuntimeEvent>)
    ensures |r| <= |emits|
  {
    if emits == [] then []
    else (if emits[0].id == id then [] else [emits[0]]) + Without(emits[1..], id)
  }

  function FirstOccurrences(emits: seq<RuntimeEvent>): (r: seq<RuntimeEvent>)
    decreases |emits|
  {
    if emits == [] then [] else [emits[0]] + FirstOccurrences(Without(emits[1..], emits[0].id))
  }

  lemma StoreKeepsDistinct(log: seq<RuntimeEvent>, event: RuntimeEvent)
    requires Distinct(log)
    ensures Distinct(Store(log, event))
    ensures log <= Store(log, event)
    ensures HasId(Store(log, event), event.id)
  {
    if !HasId(log, event.id) {
      assert Store(log, event)[|log|] == event;
      assert forall i :: 0 <= i < |log| ==> log[i] in log;
    } else {
      assert Store(log, event) == log;
    }
  }

  lemma {:induction false} StoreAllDistinct(emits: seq<RuntimeEvent>)
    ensures Distinct(StoreAll(emits))
  {
    if emits != [] {
      StoreAllDistinct(emits[..|emits| - 1]);
      StoreKeepsDistinct(StoreAll(emits[..|emits| - 1]), emits[|emits| - 1]);
    }
  }

  lemma {:induction false} StoreAllAppend(a: seq<RuntimeEvent>, e: RuntimeEvent)
    ensures StoreAll(a + [e]) == Store(StoreAll(a), e)
  {
    assert (a + [e])[..|a + [e]| - 1] == a;
  }

  /** The log holds exactly the ids emitted so far. */
  lemma {:induction false} StoreAllIds(emits: seq<RuntimeEvent>, id: EventId)
    ensures HasId(StoreAll(emits), id) <==> HasId(emits, id)
  {
    if emits != [] {
      var init, last := emits[..|emits| - 1], emits[|emits| - 1];
      StoreAllIds(init, id);
      assert emits == init + [last];
      var log := StoreAll(init);
      if HasId(emits, id) && last.id == id {
        if HasId(log, id) {
          assert StoreAll(emits) == log;
        } else {
          assert last in StoreAll(emits);
        }
      } else if HasId(emits, id) {
        var e :| e in emits && e.id == id;
        assert e in init;
        assert HasId(log, id);
        var f :| f in log && f.id == id;
        assert f in StoreAll(emits);
      }
      if HasId(StoreAll(emits), id) {
        var e :| e in StoreAll(emits) && e.id == id;
        if e in log {
          assert HasId(init, id);
          var f :| f in init && f.id == id;
          assert f in emits;
        } else {
          assert e == last;
        }
      }
    }
  }

  lemma {:induction false} WithoutAppend(a: seq<RuntimeEvent>, e: RuntimeEvent, id: EventId)
    ensures Without(a + [e], id) == Without(a, id) + (if e.id == id then [] else [e])
  {
    if a == [] {
      assert a + [e] == [e];
      assert [e][1..] == [];
    } else {
      TailOfAppend(a, [e]);
      WithoutAppend(a[1..], e, id);
      Associative(if a[0].id == id then [] else [a[0]], Without(a[1..], id), if e.id == id then [] else [e]);
    }
  }

  lemma {:induction false} WithoutHasId(a: seq<RuntimeEvent>, drop: EventId, id: EventId)
    ensures HasId(Without(a, drop), id) <==> (id != drop && HasId(a, id))
  {
    if a != [] {
      WithoutHasId(a[1..], drop, id);
      HasIdCons(a[0], a[1..], id);
      assert a == [a[0]] + a[1..];
      HasIdCons(a[0], Without(a[1..], drop), id);
      if a[0].id == drop {
        assert Without(a, drop) == Without(a[1..], drop);
      }
    }
  }

  lemma HasIdCons(e: RuntimeEvent, rest: seq<RuntimeEvent>, id: EventId)
    ensures HasId([e] + rest, id) <==> (e.id == id || HasId(rest, id))
  {
    assert e in [e] + rest;
    assert forall f :: f in [e] + rest <==> f == e || f in rest;
  }

  lemma {:induction false} FirstOccurrencesAppend(a: seq<RuntimeEvent>, e: RuntimeEvent)
    ensures FirstOccurrences(a + [e]) == FirstOccurrences(a) + (if HasId(a, e.id) then [] else [e])
    decreases |a|
  {
    if a == [] {
      assert a + [e] == [e] && [e][1..] == [];
      assert Without([], e.id) == [];
    } else {
      var first, rest := a[0], Without(a[1..], a[0].id);
      var more := if e.id == first.id then [] else [e];
      assert a == [first] + a[1..];
      HasIdCons(first, a[1..], e.id);
      assert (a + [e])[0] == first && (a + [e])[1..] == a[1..] + [e];
      WithoutAppend(a[1..], e, first.id);
      assert FirstOccurrences(a + [e]) == [first] + FirstOccurrences(rest + more);
      if e.id == first.id {
        AppendNothing(rest, rest);
        AppendNothing(FirstOccurrences(a), rest);
      } else {
        WithoutHasId(a[1..], first.id, e.id);
        FirstOccurrencesAppend(rest, e);
        Associative([first], FirstOccurrences(rest), if HasId(a, e.id) then [] else [e]);
      }
    }
  }

  /** Whatever is emitted, replays included, the log is the history without its repetitions. */
  lemma {:induction false} LogIsFirstOccurrences(emits: seq<RuntimeEvent>)
    ensures StoreAll(emits) == FirstOccurrences(emits)
  {
    if emits != [] {
      var init, last := emits[..|emits| - 1], emits[|emits| - 1];
      assert emits == init + [last];
      LogIsFirstOccurrences(init);
      FirstOccurrencesAppend(init, last);
      StoreAllIds(init, last.id);
    }
  }

  /** Re-emitting any part of the past, in any order and any number of times, changes nothing. */
  lemma {:induction false} ReplayIsNoOp(history: seq<RuntimeEvent>, replay: seq<RuntimeEvent>)
    requires forall e :: e in replay ==> HasId(history, e.id)
    ensures StoreAll(history + replay) == StoreAll(history)
  {
    if replay == [] {
      assert history + replay == history;
    } else {
      var init, last := replay[..|replay| - 1], replay[|replay| - 1];
      assert history + replay == (history + init) + [last];
      assert forall e :: e in init ==> e in replay;
      ReplayIsNoOp(history, init);
      StoreAllAppend(history + init, last);
      assert last in replay;
      StoreAllIds(history, last.id);
    }
  }

  // ---------------------------------------------------------------- filtering

  /** What `list_events` and the watcher leave out before filtering. */
  function Listed(log: seq<RuntimeEvent>): (r: seq<RuntimeEvent>)
  {
    if log == [] then []
    else
      var last := log[|log| - 1];
      Listed(log[..|log| - 1]) + (if last.kind == STATE_COMMITTED then [] else [last])
  }

  predicate InSession(e: RuntimeEvent, session: Option<SessionId>) {
    session.None? || e.sessionId == session.value
  }

  function Project(events: seq<RuntimeEvent>, session: Option<SessionId>): (r: seq<RuntimeEvent>)
  {
    if events == [] then []
    else
      var last := events[|events| - 1];
      Project(events[..|events| - 1], session) + (if InSession(last, session) then [last] else [])
  }

  /** Everything after the first event with id `cursor`; None when there is no such event. */
  function DropThrough(events: seq<RuntimeEvent>, cursor: EventId): (r: Option<seq<RuntimeEvent>>)
  {
    if events == [] then None
    else
      var last := events[|events| - 1];
      match DropThrough(events[..|events| - 1], cursor)
      case Some(rest) => Some(rest + [last])
      case None => if last.id == cursor then Some([]) else None
  }

  function AfterCursor(events: seq<RuntimeEvent>, after: Option<EventId>): (r: Batch)
  {
    match after
    case None => Ok(events)
    case Some(c) =>
      match DropThrough(events, c)
      case None => Err(CursorNotFound(c))
      case Some(rest) => Ok(rest)
  }

  function TakeLimit(batch: Batch, limit: Option<int>): (r: Batch)
    requires limit.Some? ==> limit.value >= 1
  {
    match batch
    case Err(e) => Err(e)
    case Ok(events) => Ok(if limit.None? then events else FirstN(events, limit.value))
  }

  /** "Project to the session, drop through the cursor, take limit." */
  function Filtered(events: seq<RuntimeEvent>, session: Option<SessionId>,
                    after: Option<EventId>, limit: Option<int>): (r: Batch)
  {
    if limit.Some? && limit.value < 1 then Err(InvalidLimit(limit.value))
    else TakeLimit(AfterCursor(Project(events, session), after), limit)
  }

  /** What a reader of `log` may see of `session` after `after`. */
  function Visible(log: seq<RuntimeEvent>, session: Option<SessionId>, after: Option<EventId>): (r: Batch)
  {
    AfterCursor(Project(Listed(log), session), after)
  }

  /** The part of a stretch of log a reader of `session` may see. */
  function Scoped(stretch: seq<RuntimeEvent>, session: Option<SessionId>): (r: seq<RuntimeEvent>)
  {
    Project(Listed(stretch), session)
  }

  lemma HasIdSnoc(events: seq<RuntimeEvent>, e: RuntimeEvent, id: EventId)
    ensures HasId(events + [e], id) <==> HasId(events, id) || e.id == id
  {
    assert forall f :: f in events + [e] <==> f in events || f == e;
    assert e in events + [e];
  }

  lemma {:induction false} DropThroughRaises(events: seq<RuntimeEvent>, cursor: EventId)
    ensures DropThrough(events, cursor).None? <==> !HasId(events, cursor)
  {
    if events != [] {
      var init, last := events[..|events| - 1], events[|events| - 1];
      DropThroughRaises(init, cursor);
      HasIdSnoc(init, last, cursor);
      assert events == init + [last];
    }
  }

  lemma {:induction false} DropThroughHit(events: seq<RuntimeEvent>, cursor: EventId, k: nat)
    requires k < |events| && events[k].id == cursor && !HasId(events[..k], cursor)
    ensures DropThrough(events, cursor) == Some(events[k + 1..])
  {
    var init, last := events[..|events| - 1], events[|events| - 1];
    if k < |init| {
      assert init[..k] == events[..k];
      DropThroughHit(init, cursor, k);
      assert events[k + 1..] == init[k + 1..] + [last];
    } else {
      assert events[..k] == init;
      DropThroughRaises(init, cursor);
      assert events[k + 1..] == [];
    }
  }

  /** DropThrough described by positions: the suffix behind the first hit, None without a hit. */
  lemma DropThroughByPosition(events: seq<RuntimeEvent>, cursor: EventId)
    ensures DropThrough(events, cursor).None? <==> !HasId(events, cursor)
    ensures forall k :: 0 <= k < |events| && events[k].id == cursor && !HasId(events[..k], cursor)
                        ==> DropThrough(events, cursor) == Some(events[k + 1..])
  {
    DropThroughRaises(events, cursor);
    forall k | 0 <= k < |events| && events[k].id == cursor && !HasId(events[..k], cursor)
      ensures DropThrough(events, cursor) == Some(events[k + 1..])
    {
      DropThroughHit(events, cursor, k);
    }
  }

  lemma {:induction false} DropThroughLonger(events: seq<RuntimeEvent>, more: seq<RuntimeEvent>, cursor: EventId)
    requires DropThrough(events, cursor).Some?
    ensures DropThrough(events + more, cursor) == Some(DropThrough(events, cursor).value + more)
  {
    if more == [] {
      assert events + more == events;
      assert DropThrough(events, cursor).value + more == DropThrough(events, cursor).value;
    } else {
      var init, last := more[..|more| - 1], more[|more| - 1];
      DropThroughLonger(events, init, cursor);
      assert (events + more)[..|events + more| - 1] == events + init;
      assert DropThrough(events, cursor).value + init + [last] == DropThrough(events, cursor).value + more;
    }
  }

  lemma {:induction false} ListedAppend(a: seq<RuntimeEvent>, b: seq<RuntimeEvent>)
    ensures Listed(a + b) == Listed(a) + Listed(b)
  {
    if b == [] {
      assert a + b == a;
    } else {
      assert (a + b)[..|a + b| - 1] == a + b[..|b| - 1];
      ListedAppend(a, b[..|b| - 1]);
    }
  }

  lemma {:induction false} ProjectAppend(a: seq<RuntimeEvent>, b: seq<RuntimeEvent>, session: Option<SessionId>)
    ensures Project(a + b, session) == Project(a, session) + Project(b, session)
  {
    if b == [] {
      assert a + b == a;
    } else {
      assert (a + b)[..|a + b| - 1] == a + b[..|b| - 1];
      ProjectAppend(a, b[..|b| - 1], session);
    }
  }

  lemma ScopedAppend(a: seq<RuntimeEvent>, b: seq<RuntimeEvent>, session: Option<SessionId>)
    ensures Scoped(a + b, session) == Scoped(a, session) + Scoped(b, session)
  {
    ListedAppend(a, b);
    ProjectAppend(Listed(a), Listed(b), session);
  }

  /** Both filters keep a subsequence, so ids that were distinct stay distinct. */
  lemma {:induction false} ListedDistinct(log: seq<RuntimeEvent>)
    requires Distinct(log)
    ensures Distinct(Listed(log))
    ensures forall e :: e in Listed(log) ==> e in log
  {
    if log != [] {
      var init, last := log[..|log| - 1], log[|log| - 1];
      ListedDistinct(init);
      assert log == init + [last];
      assert forall i :: 0 <= i < |Listed(init)| ==> Listed(init)[i] in init;
    }
  }

  lemma {:induction false} ProjectDistinct(events: seq<RuntimeEvent>, session: Option<SessionId>)
    requires Distinct(events)
    ensures Distinct(Project(events, session))
    ensures forall e :: e in Project(events, session) ==> e in events
  {
    if events != [] {
      var init, last := events[..|events| - 1], events[|events| - 1];
      ProjectDistinct(init, session);
      assert events == init + [last];
      assert forall i :: 0 <= i < |Project(init, session)| ==> Project(init, session)[i] in init;
    }
  }

  /** An append-only log only ever adds to what a valid cursor can see. */
  lemma VisibleGrows(log: seq<RuntimeEvent>, more: seq<RuntimeEvent>,
                     session: Option<SessionId>, after: Option<EventId>)
    requires Visible(log, session, after).Ok?
    ensures Visible(log + more, session, after)
         == Ok(Visible(log, session, after).value + Scoped(more, session))
  {
    ScopedAppend(log, more, session);
    if after.Some? {
      DropThroughLonger(Scoped(log, session), Scoped(more, session), after.value);
    }
  }

  function LastId(seen: seq<RuntimeEvent>, origin: Option<EventId>): (r: Option<EventId>)
  {
    if seen == [] then origin else Some(seen[|seen| - 1].id)
  }

  /** Restarting from the last id seen continues exactly where the reading stopped. */
  lemma ResumeContinues(log: seq<RuntimeEvent>, session: Option<SessionId>,
                        origin: Option<EventId>, seen: seq<RuntimeEvent>)
    requires Distinct(log)
    requires Visible(log, session, origin).Ok?
    requires seen <= Visible(log, session, origin).value
    ensures Visible(log, session, LastId(seen, origin))
         == Ok(Visible(log, session, origin).value[|seen|..])
  {
    ListedDistinct(log);
    ProjectDistinct(Listed(log), session);
    if seen == [] {
      assert Visible(log, session, origin).value[0..] == Visible(log, session, origin).value;
    } else {
      ResumeBehind(Scoped(log, session), origin, seen);
    }
  }

  lemma ResumeBehind(scoped: seq<RuntimeEvent>, origin: Option<EventId>, seen: seq<RuntimeEvent>)
    requires Distinct(scoped) && AfterCursor(scoped, origin).Ok?
    requires seen != [] && seen <= AfterCursor(scoped, origin).value
    ensures DropThrough(scoped, seen[|seen| - 1].id) == Some(AfterCursor(scoped, origin).value[|seen|..])
  {
    var before := SuffixStart(scoped, origin);
    SuffixPositions(scoped, before, |seen| - 1);
    DropThroughOwn(scoped, before + |seen| - 1);
  }

  lemma DropThroughOwn(events: seq<RuntimeEvent>, k: nat)
    requires Distinct(events) && k < |events|
    ensures DropThrough(events, events[k].id) == Some(events[k + 1..])
  {
    assert forall j :: 0 <= j < k ==> events[..k][j] == events[j];
    DropThroughHit(events, events[k].id, k);
  }

  /** How many events a valid cursor drops. */
  lemma SuffixStart(events: seq<RuntimeEvent>, after: Option<EventId>) returns (start: nat)
    requires AfterCursor(events, after).Ok?
    ensures start <= |events| && AfterCursor(events, after).value == events[start..]
  {
    if after.None? {
      start := 0;
    } else {
      DropThroughRaises(events, after.value);
      var hit := FirstHit(events, after.value);
      DropThroughHit(events, after.value, hit);
      start := hit + 1;
    }
  }

  lemma {:induction false} FirstHit(events: seq<RuntimeEvent>, id: EventId) returns (k: nat)
    requires HasId(events, id)
    ensures k < |events| && events[k].id == id && !HasId(events[..k], id)
  {
    var init, last := events[..|events| - 1], events[|events| - 1];
    assert events == init + [last];
    if HasId(init, id) {
      k := FirstHit(init, id);
      assert init[..k] == events[..k];
    } else {
      k := |init|;
      assert events[..k] == init;
    }
  }

  /** The one-pass loop of `filter_events`: skip by session, cursor flags, stop at the limit. */
  method FilterEvents(events: seq<RuntimeEvent>, session: Option<SessionId>,
                      after: Option<EventId>, limit: Option<int>)
    returns (r: Batch)
    ensures r == Filtered(events, session, after, limit)
    ensures r.Ok? && session.Some? ==> forall e :: e in r.value ==> e.sessionId == session.value
  {
    FilteredHolds(events, session, after, limit);
    if limit.Some? && limit.value < 1 {
      return Err(InvalidLimit(limit.value));
    }
    var selected: seq<RuntimeEvent> := [];
    var cursorSeen := after.None?;
    var cursorInScope := false;
    ghost var scoped: Batch := AfterCursor([], after);
    var i := 0;
    assert events[..0] == [];
    while i < |events|
      invariant 0 <= i <= |events|
      invariant after.Some? ==> cursorSeen == cursorInScope
      invariant after.None? ==> cursorSeen && !cursorInScope
      invariant scoped == AfterCursor(Project(events[..i], session), after)
      invariant cursorSeen == scoped.Ok?
      invariant selected == if scoped.Ok? then scoped.value else []
      invariant scoped.Err? ==> after.Some? && scoped == Err(CursorNotFound(after.value))
      invariant limit.Some? ==> |selected| < limit.value
    {
      var event := events[i];
      FilterStep(events, i, session, after);
      scoped := AfterCursor(Project(events[..i + 1], session), after);
      i := i + 1;
      if session.Some? && event.sessionId != session.value {
        continue;
      }
      if after.Some? && event.id == after.value {
        cursorInScope := true;
      }
      if !cursorSeen {
        if after == Some(event.id) {
          cursorSeen := true;
        }
        continue;
      }
      selected := selected + [event];
      if limit.Some? && |selected| >= limit.value {
        StopIsEnough(events, i, session, after);
        FirstOfLonger(selected, AfterCursor(Project(events, session), after).value, limit.value);
        break;
      }
    }
    AppendNothing(events, events);
    if after.Some? && !cursorInScope {
      return Err(CursorNotFound(after.value));
    }
    return Ok(selected);
  }

  /** How one more event changes the selection. */
  lemma FilterStep(events: seq<RuntimeEvent>, i: nat, session: Option<SessionId>, after: Option<EventId>)
    requires i < |events|
    ensures var before, now := AfterCursor(Project(events[..i], session), after),
                               AfterCursor(Project(events[..i + 1], session), after);
            if !InSession(events[i], session) then now == before
            else if before.Ok? then now == Ok(before.value + [events[i]])
            else now == if after == Some(events[i].id) then Ok([]) else before
  {
    var scoped := Project(events[..i], session);
    assert events[..i + 1][..|events[..i + 1]| - 1] == events[..i];
    if InSession(events[i], session) {
      assert (scoped + [events[i]])[..|scoped + [events[i]]| - 1] == scoped;
    } else {
      assert scoped + [] == scoped;
    }
  }

  /** Reading on can only append to what has been selected so far. */
  lemma StopIsEnough(events: seq<RuntimeEvent>, i: nat, session: Option<SessionId>, after: Option<EventId>)
    requires i <= |events|
    requires AfterCursor(Project(events[..i], session), after).Ok?
    ensures AfterCursor(Project(events, session), after).Ok?
    ensures AfterCursor(Project(events[..i], session), after).value
         <= AfterCursor(Project(events, session), after).value
  {
    assert events == events[..i] + events[i..];
    ProjectAppend(events[..i], events[i..], session);
    if after.Some? {
      DropThroughLonger(Project(events[..i], session), Project(events[i..], session), after.value);
    }
  }

  lemma FirstOfLonger<T>(part: seq<T>, all: seq<T>, n: nat)
    requires part <= all && |part| == n
    ensures FirstN(all, n) == part
  {
  }

  /** Exactly when a read raises, and what: an invalid limit, or a cursor absent from the session's log. */
  lemma ReadRaises(events: seq<RuntimeEvent>, session: Option<SessionId>,
                   after: Option<EventId>, limit: Option<int>)
    ensures Filtered(events, session, after, limit).Err? <==>
            || (limit.Some? && limit.value < 1)
            || (after.Some? && !exists e :: e in events && e.id == after.value
                                            && (session.None? || e.sessionId == session.value))
    ensures Filtered(events, session, after, limit).Err? ==>
              Filtered(events, session, after, limit).error
              == if limit.Some? && limit.value < 1 then InvalidLimit(limit.value) else CursorNotFound(after.value)
  {
    ProjectMembers(events, session);
    if after.Some? {
      DropThroughByPosition(Project(events, session), after.value);
    }
  }

  lemma {:induction false} ProjectMembers(events: seq<RuntimeEvent>, session: Option<SessionId>)
    ensures forall e :: e in Project(events, session) <==>
              e in events && (session.None? || e.sessionId == session.value)
  {
    if events != [] {
      var init, last := events[..|events| - 1], events[|events| - 1];
      ProjectMembers(init, session);
      assert events == init + [last];
    }
  }

  lemma {:induction false} ListedMembers(log: seq<RuntimeEvent>)
    ensures forall e :: e in Listed(log) <==> e in log && e.kind != "SessionStateCommitted"
  {
    if log != [] {
      var init, last := log[..|log| - 1], log[|log| - 1];
      ListedMembers(init);
      assert log == init + [last];
    }
  }

  // ------------------------------------------------ what a read holds, in plain terms

  /** A read of a session without cursor and limit holds exactly its events, in order. */
  lemma {:induction false} ReadHolds(events: seq<RuntimeEvent>, session: Option<SessionId>) returns (at: seq<nat>)
    ensures Filtered(events, session, None, None).Ok?
    ensures Picks(events, Filtered(events, session, None, None).value, at)
    ensures forall i :: 0 <= i < |events| ==>
              (i in at <==> session.None? || events[i].sessionId == session.value)
  {
    at := [];
    if events != [] {
      var init, last := events[..|events| - 1], events[|events| - 1];
      assert events == init + [last];
      at := ReadHolds(init, session);
      PicksOneMore(init, last, Project(init, session), at);
      if session.None? || last.sessionId == session.value {
        at := at + [|init|];
      } else {
        AppendNothing(Project(init, session), []);
      }
    }
  }

  /** With a cursor: what is behind the first event of that id. */
  lemma ReadAfter(events: seq<RuntimeEvent>, session: Option<SessionId>, cursor: EventId) returns (k: nat)
    requires Filtered(events, session, Some(cursor), None).Ok?
    ensures var all := Filtered(events, session, None, None);
            && all.Ok? && k < |all.value| && all.value[k].id == cursor
            && (forall j :: 0 <= j < k ==> all.value[j].id != cursor)
            && Filtered(events, session, Some(cursor), None) == Ok(all.value[k + 1..])
  {
    var all := Project(events, session);
    DropThroughRaises(all, cursor);
    k := FirstHit(all, cursor);
    DropThroughHit(all, cursor, k);
    assert forall j :: 0 <= j < k ==> all[..k][j] == all[j];
  }

  /** With a limit: the first that many. */
  lemma ReadLimited(events: seq<RuntimeEvent>, session: Option<SessionId>, after: Option<EventId>, limit: int)
    requires limit >= 1 && Filtered(events, session, after, None).Ok?
    ensures var all := Filtered(events, session, after, None).value;
            Filtered(events, session, after, Some(limit)) == Ok(if |all| <= limit then all else all[..limit])
  {
  }

  lemma FilteredHolds(events: seq<RuntimeEvent>, session: Option<SessionId>,
                      after: Option<EventId>, limit: Option<int>)
    ensures Filtered(events, session, after, limit).Ok? ==>
              forall e :: e in Filtered(events, session, after, limit).value ==>
                e in events && (session.None? || e.sessionId == session.value)
  {
    var scoped := Project(events, session);
    ProjectMembers(events, session);
    if AfterCursor(scoped, after).Ok? {
      var start := SuffixStart(scoped, after);
      assert forall k :: 0 <= k < |scoped[start..]| ==> scoped[start..][k] == scoped[start + k];
    }
  }

  /** What `list_events` and a watcher can ever see: no committed-state event, and one session's only. */
  lemma VisibleHolds(log: seq<RuntimeEvent>, session: Option<SessionId>, after: Option<EventId>)
    requires Visible(log, session, after).Ok?
    ensures forall e :: e in Visible(log, session, after).value ==>
              && e in log && e.kind != "SessionStateCommitted"
              && (session.None? || e.sessionId == session.value)
  {
    var scoped := Scoped(log, session);
    ListedMembers(log);
    ProjectMembers(Listed(log), session);
    var start := SuffixStart(scoped, after);
    assert forall k :: 0 <= k < |scoped[start..]| ==> scoped[start..][k] == scoped[start + k];
  }

  /** And without a cursor, all of that, in log order. */
  lemma {:induction false} VisibleFromStart(log: seq<RuntimeEvent>, session: Option<SessionId>) returns (at: seq<nat>)
    ensures Visible(log, session, None).Ok?
    ensures Picks(log, Visible(log, session, None).value, at)
    ensures forall i :: 0 <= i < |log| ==>
              (i in at <==> log[i].kind != "SessionStateCommitted"
                            && (session.None? || log[i].sessionId == session.value))
  {
    at := [];
    if log != [] {
      var init, last := log[..|log| - 1], log[|log| - 1];
      assert log == init + [last];
      at := VisibleFromStart(init, session);
      ScopedOneMore(init, last, session);
      PicksOneMore(init, last, Scoped(init, session), at);
      if last.kind != "SessionStateCommitted" && (session.None? || last.sessionId == session.value) {
        at := at + [|init|];
      }
    }
  }

  lemma ScopedOneMore(init: seq<RuntimeEvent>, last: RuntimeEvent, session: Option<SessionId>)
    ensures Scoped(init + [last], session)
         == if last.kind != "SessionStateCommitted" && (session.None? || last.sessionId == session.value)
            then Scoped(init, session) + [last] else Scoped(init, session)
  {
    ScopedAppend(init, [last], session);
    assert [last][..0] == [] && [] + [last] == [last];
    assert Listed([last]) == if last.kind != "SessionStateCommitted" then [last] else [];
    assert Project([last], session) == if session.None? || last.sessionId == session.value then [last] else [];
    AppendNothing(Scoped(init, session), []);
  }

  // ----------------------------------------------------------------- the sink

  /** The wake flag (`asyncio.Event`) of one watcher. */
  class WakeFlag {
    var isSet: bool

    constructor ()
      ensures !isSet
    {
      isSet := false;
    }
  }

  class InMemoryEventSink {
    var events: seq<RuntimeEvent>
    var eventIds: set<EventId>
    var subscribers: seq<WakeFlag>

    /** `_event_ids` is exactly the id set of a log without repetitions. */
    ghost predicate Valid()
      reads this
    {
      && Distinct(events)
      && (forall id :: id in eventIds <==> HasId(events, id))
    }

    constructor ()
      ensures Valid() && events == [] && subscribers == []
    {
      events, eventIds, subscribers := [], {}, [];
    }

    method Append(event: RuntimeEvent)
      requires Valid()
      modifies this`events, this`eventIds
      ensures Valid() && events == Store(old(events), event)
    {
      StoreKeepsDistinct(events, event);
      if event.id in eventIds {
        return;
      }
      eventIds := eventIds + {event.id};
      events := events + [event];
      assert forall e :: e in events <==> e in old(events) || e == event;
      assert forall id :: HasId(events, id) <==> HasId(old(events), id) || id == event.id by {
        assert event in events;
      }
    }

    method Emit(event: RuntimeEvent)
      requires Valid()
      modifies this`events, this`eventIds, subscribers
      ensures Valid() && events == Store(old(events), event)
      ensures forall s :: s in subscribers ==> s.isSet
    {
      Append(event);
      var i := 0;
      while i < |subscribers|
        invariant 0 <= i <= |subscribers|
        invariant Valid() && events == Store(old(events), event)
        invariant forall k :: 0 <= k < i ==> subscribers[k].isSet
        modifies subscribers
      {
        subscribers[i].isSet := true;
        i := i + 1;
      }
    }

    /** `list_events`; with no limit it is also `_filter_existing`. */
    method ListEvents(session: Option<SessionId>, after: Option<EventId>, limit: Option<int>)
      returns (r: Batch)
      ensures r == Filtered(Listed(events), session, after, limit)
      ensures r.Ok? ==> forall e :: e in r.value ==>
                && e in events && e.kind != "SessionStateCommitted"
                && (session.None? || e.sessionId == session.value)
    {
      var listed: seq<RuntimeEvent> := [];
      var i := 0;
      while i < |events|
        invariant 0 <= i <= |events|
        invariant listed == Listed(events[..i])
      {
        assert events[..i + 1][..|events[..i + 1]| - 1] == events[..i];
        if events[i].kind != STATE_COMMITTED {
          listed := listed + [events[i]];
        }
        i := i + 1;
      }
      assert events[..|events|] == events;
      ListedMembers(events);
      FilteredHolds(listed, session, after, limit);
      r := FilterEvents(listed, session, after, limit);
    }
  }
}
