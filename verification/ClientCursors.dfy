/**
 Cursors between the clients and agentd.  The server reads the query parameter
 `after`; `AgentdClient.stream_events` sends `after_event_id`, and the overview
 page (`loadActivity`) sends `cursor`, so both always start from the beginning.
 */
module ClientCursors {
  import opened Prelude
  import opened Text
  import opened EventLog
  import opened EventReaders
  import opened BrowserStream
  import opened BrowserReconnects
  import opened BrowserPages
  import opened TenantPaging

  datatype Parameter = Parameter(key: string, value: string)

  function Called(key: string): (test: Parameter -> bool)
  {
    (parameter: Parameter) => parameter.key == key
  }

  datatype BadRequest = Repeated(key: string) | Blank(key: string) | UnknownCursor(cursor: string)

  /** `_optional_query_value` */
  function QueryValue(query: seq<Parameter>, key: string): (r: Result<Option<string>, BadRequest>)
  {
    var named := Where(query, Called(key));
    if named == [] then Ok(None)
    else if |named| != 1 then Err(Repeated(key))
    else if IsBlank(named[0].value) then Err(Blank(key))
    else Ok(Some(named[0].value))
  }

  /** Where the parameters of a name are, and what the server makes of it: none, one that is read, or an error. */
  lemma QueryValueIs(query: seq<Parameter>, key: string) returns (at: seq<nat>)
    ensures forall i :: 0 <= i < |query| ==> (i in at <==> query[i].key == key)
    ensures forall j, k :: 0 <= j < k < |at| ==> at[j] < at[k]
    ensures forall k :: 0 <= k < |at| ==> at[k] < |query|
    ensures QueryValue(query, key)
         == if |at| == 0 then Ok(None)
            else if |at| > 1 then Err(Repeated(key))
            else if IsBlank(query[at[0]].value) then Err(Blank(key))
            else Ok(Some(query[at[0]].value))
  {
    at := WhereAre(query, Called(key));
  }

  /** A request with at most one parameter. */
  function Request(key: string, value: Option<string>): (query: seq<Parameter>)
  {
    if value.None? then [] else [Parameter(key, value.value)]
  }

  /** The server sees the cursor of a request that calls it `after`, and none of any other. */
  lemma CursorSeenIff(key: string, value: Option<string>)
    requires value.Some? ==> !IsBlank(value.value)
    ensures QueryValue(Request(key, value), "after") == if key == "after" then Ok(value) else Ok(None)
  {
    if value.Some? {
      var one := Request(key, value);
      assert one[..0] == [];
      assert Where(one, Called("after")) == if key == "after" then one else [];
    }
  }

  // ------------------------------------------------------------- event streams

  /** What the server has to stream for a request, from a given log. */
  function Streamed(log: seq<RuntimeEvent>, session: Option<SessionId>, query: seq<Parameter>)
    : (r: Result<Batch, BadRequest>)
  {
    match QueryValue(query, "after")
    case Err(e) => Err(e)
    case Ok(after) => Ok(Visible(log, session, after))
  }

  lemma {:induction false} DropThroughShortens(events: seq<RuntimeEvent>, cursor: EventId)
    requires DropThrough(events, cursor).Some?
    ensures |DropThrough(events, cursor).value| < |events|
  {
    var init := events[..|events| - 1];
    if DropThrough(init, cursor).Some? {
      DropThroughShortens(init, cursor);
    }
  }

  /** A client resuming after an event is served from the start, so it resumes only if it never asked to. */
  lemma ClientResumesIff(log: seq<RuntimeEvent>, session: Option<SessionId>, after: Option<EventId>)
    requires after.Some? ==> !IsBlank(after.value)
    ensures var served := Streamed(log, session, Request("after_event_id", after));
            && served == Ok(Visible(log, session, None))
            && (served == Ok(Visible(log, session, after)) <==> after.None?)
  {
    assert "after_event_id" != "after" by { assert |"after_event_id"| != |"after"|; }
    CursorSeenIff("after_event_id", after);
    if after.Some? && Visible(log, session, after).Ok? {
      DropThroughShortens(Scoped(log, session), after.value);
    }
  }

  /**
   Over whole runs: a client that reconnects with its last event id is sent
   something again on every connection that is served anything, once an earlier
   one was.
   */
  lemma ResumedStreamRepeatsIff(consumers: Consumers, steps: seq<Step>, session: Option<SessionId>,
                                conns: seq<Connection>, c: nat)
    requires OnePage(consumers, steps, session, conns) && c < |conns|
    ensures var parts := Parts(consumers, steps, conns, ALL);
            Repeats(Joined(parts[..c]), parts[c]) <==>
            && Reached(consumers, steps, conns, c) > 0
            && Run(consumers, steps[..conns[c].until]).readers[conns[c].reader].seen != []
  {
    var parts := Parts(consumers, steps, conns, ALL);
    var conn, lo, reached := conns[c], Start(conns, c), Reached(consumers, steps, conns, c);
    assert Follows(consumers, steps, session, conns, c);
    PageDelivered(consumers, steps, session, conns, c, ALL);
    ReachedIsKnown(consumers, steps, session, conns, c);
    ConnectionSends(consumers, steps, session, conn, lo, reached);
    RunKeepsInv(consumers, steps);
    SeeableIsLog(Run(consumers, steps).log, session);
    RepeatsIffBoth(Joined(parts[..c]), Sent(consumers, steps[..conn.until], conn.reader),
                   FramesOf(Seeable(Run(consumers, steps).log, session)),
                   |Run(consumers, steps[..conn.until]).readers[conn.reader].seen|, lo, conn.until, reached);
  }

  // ----------------------------------------------------------- the overview page

  const ACTIVITY_PAGES: nat := 5

  /** The listing request as the server serves it. */
  function Listing(raw: seq<Session<string>>, tenant: Option<string>, query: seq<Parameter>, limit: int)
    : (r: Result<SessionBatch<string>, BadRequest>)
    requires DistinctIds(raw) && limit >= 1
  {
    match QueryValue(query, "after")
    case Err(e) => Err(e)
    case Ok(after) =>
      if KnownCursor(raw, after) then Ok(GetSessions(raw, tenant, after, Some(limit)).value)
      else Err(BadRequest.UnknownCursor(after.value))
  }

  function Truthy(cursor: Option<string>): (b: bool)
  {
    cursor.Some? && cursor.value != ""
  }

  /** What following `next_cursor` for `n` pages collects. */
  function FirstPages(raw: seq<Session<string>>, tenant: Option<string>, after: Option<string>, limit: int, n: nat)
    : (r: seq<Session<string>>)
    requires DistinctIds(raw) && KnownCursor(raw, after) && limit >= 1
    decreases n
  {
    MovingCursorAdvances(raw, tenant, after, Some(limit));
    if n == 0 then []
    else
      var batch := GetSessions(raw, tenant, after, Some(limit)).value;
      batch.sessions
      + (if Truthy(batch.nextCursor) then FirstPages(raw, tenant, batch.nextCursor, limit, n - 1) else [])
  }

  function Times<T>(s: seq<T>, n: nat): (r: seq<T>)
    ensures |r| == n * |s|
  {
    if n == 0 then [] else s + Times(s, n - 1)
  }

  /** The page loop of `loadActivity`: at most five requests, each with the cursor of the answer before. */
  method LoadActivity(raw: seq<Session<string>>, tenant: Option<string>, limit: int)
    returns (counted: seq<Session<string>>)
    requires DistinctIds(raw) && limit >= 1
    requires forall k :: 0 <= k < |raw| ==> !IsBlank(raw[k].id)
    ensures var first := GetSessions(raw, tenant, None, Some(limit)).value;
            counted == Times(first.sessions, if Truthy(first.nextCursor) then 5 else 1)
  {
    counted := [];
    var cursor: Option<string> := None;
    var page := 0;
    ghost var first := GetSessions(raw, tenant, None, Some(limit)).value;
    CursorsAreIds(raw, tenant, limit);
    while page < ACTIVITY_PAGES
      invariant 0 <= page <= ACTIVITY_PAGES
      invariant cursor == if page == 0 then None else first.nextCursor
      invariant cursor.Some? ==> !IsBlank(cursor.value)
      invariant page > 0 ==> Truthy(first.nextCursor)
      invariant counted == Times(first.sessions, page)
    {
      NoCursorArrives(cursor);
      var batch := Listing(raw, tenant, Request("cursor", cursor), limit);
      counted := counted + batch.value.sessions;
      TimesMore(first.sessions, page);
      if !Truthy(batch.value.nextCursor) {
        return;
      }
      cursor := batch.value.nextCursor;
      page := page + 1;
    }
  }

  lemma NoCursorArrives(cursor: Option<string>)
    requires cursor.Some? ==> !IsBlank(cursor.value)
    ensures QueryValue(Request("cursor", cursor), "after") == Ok(None)
  {
    assert |"cursor"| != |"after"|;
    CursorSeenIff("cursor", cursor);
  }

  lemma {:induction false} TimesMore<T>(s: seq<T>, n: nat)
    ensures Times(s, n) + s == Times(s, n + 1)
  {
    if n == 0 {
      AppendNothing(s, s);
    } else {
      TimesMore(s, n - 1);
      Associative(s, Times(s, n - 1), s);
    }
  }

  /** A page's cursor is the id of a session. */
  lemma CursorsAreIds(raw: seq<Session<string>>, tenant: Option<string>, limit: int)
    requires DistinctIds(raw) && limit >= 1
    requires forall k :: 0 <= k < |raw| ==> !IsBlank(raw[k].id)
    ensures var next := GetSessions(raw, tenant, None, Some(limit)).value.nextCursor;
            && (next.Some? ==> !IsBlank(next.value))
            && (Truthy(next) <==> raw != [])
  {
    MovingCursorAdvances(raw, tenant, None, Some(limit));
    var next := GetSessions(raw, tenant, None, Some(limit)).value.nextCursor;
    if next.Some? {
      var k := IndexOf(raw, next.value);
      assert raw[k].id == next.value;
    }
  }

  lemma {:induction false} VisibleAreListed(sessions: seq<Session<string>>, tenant: Option<string>)
    ensures AllIn(VisibleTo(sessions, tenant), sessions)
  {
    if sessions != [] {
      InitAndLast(sessions);
      VisibleAreListed(sessions[..|sessions| - 1], tenant);
    }
  }

  /** Pages behind a cursor hold sessions behind it. */
  lemma {:induction false} PagesLieBehind(raw: seq<Session<string>>, tenant: Option<string>, after: Option<string>,
                                          limit: int, n: nat)
    requires DistinctIds(raw) && KnownCursor(raw, after) && limit >= 1
    ensures AllIn(FirstPages(raw, tenant, after, limit, n), raw[Position(raw, after)..])
    decreases n
  {
    if n > 0 {
      var to := OnePageLies(raw, tenant, after, limit);
      var next := GetSessions(raw, tenant, after, Some(limit)).value.nextCursor;
      if Truthy(next) {
        PagesLieBehind(raw, tenant, next, limit, n - 1);
      }
      OnePageMore(raw, tenant, after, limit, n, to);
    }
  }

  lemma OnePageMore(raw: seq<Session<string>>, tenant: Option<string>, after: Option<string>,
                    limit: int, n: nat, to: nat)
    requires DistinctIds(raw) && KnownCursor(raw, after) && limit >= 1 && n > 0
    requires GetSessions(raw, tenant, after, Some(limit)).Ok?
    requires var batch := GetSessions(raw, tenant, after, Some(limit)).value;
             && KnownCursor(raw, batch.nextCursor)
             && Position(raw, after) <= to <= |raw|
             && AllIn(batch.sessions, raw[Position(raw, after)..to])
             && (Truthy(batch.nextCursor) ==>
                   AllIn(FirstPages(raw, tenant, batch.nextCursor, limit, n - 1), raw[to..]))
    ensures AllIn(FirstPages(raw, tenant, after, limit, n), raw[Position(raw, after)..])
  {
    var batch := GetSessions(raw, tenant, after, Some(limit)).value;
    var more := if Truthy(batch.nextCursor) then FirstPages(raw, tenant, batch.nextCursor, limit, n - 1) else [];
    assert FirstPages(raw, tenant, after, limit, n) == batch.sessions + more;
    JoinedLieBehind(raw, Position(raw, after), to, batch.sessions, more);
  }

  lemma OnePageLies(raw: seq<Session<string>>, tenant: Option<string>, after: Option<string>, limit: int)
    returns (to: nat)
    requires DistinctIds(raw) && KnownCursor(raw, after) && limit >= 1
    ensures GetSessions(raw, tenant, after, Some(limit)).Ok?
    ensures var batch := GetSessions(raw, tenant, after, Some(limit)).value;
            && KnownCursor(raw, batch.nextCursor) && Position(raw, batch.nextCursor) == to
            && Position(raw, after) <= to <= |raw|
            && AllIn(batch.sessions, raw[Position(raw, after)..to])
  {
    to := PageStep(raw, tenant, after, Some(limit));
    VisibleAreListed(raw[Position(raw, after)..to], tenant);
  }

  ghost predicate AllIn<T>(part: seq<T>, whole: seq<T>) {
    forall x :: x in part ==> x in whole
  }

  lemma JoinedLieBehind<T>(s: seq<T>, from: nat, to: nat, a: seq<T>, b: seq<T>)
    requires from <= to <= |s| && AllIn(a, s[from..to]) && AllIn(b, s[to..])
    ensures AllIn(a + b, s[from..])
  {
    assert s[from..] == s[from..to] + s[to..];
  }

  lemma SlicesShareNothing(raw: seq<Session<string>>, to: nat, s: Session<string>)
    requires DistinctIds(raw) && to <= |raw|
    ensures !(s in raw[..to] && s in raw[to..])
  {
    forall i, j | 0 <= i < to && 0 <= j < |raw[to..]|
      ensures raw[..to][i] != raw[to..][j]
    {
      assert raw[to..][j] == raw[to + j];
    }
  }

  /**
   The page collects what following the cursor for five pages would collect if and
   only if there is nothing to collect; otherwise it counts the first page five times.
   */
  lemma ActivityIsRightIff(raw: seq<Session<string>>, tenant: Option<string>, limit: int)
    requires DistinctIds(raw) && limit >= 1
    requires forall k :: 0 <= k < |raw| ==> !IsBlank(raw[k].id)
    ensures var first := GetSessions(raw, tenant, None, Some(limit)).value;
            var counted := Times(first.sessions, if Truthy(first.nextCursor) then 5 else 1);
            var meant := FirstPages(raw, tenant, None, limit, 5);
            counted == meant <==> meant == []
  {
    var first := GetSessions(raw, tenant, None, Some(limit)).value;
    var to := PageStep(raw, tenant, None, Some(limit));
    MovingCursorAdvances(raw, tenant, None, Some(limit));
    CursorsAreIds(raw, tenant, limit);
    if first.sessions != [] {
      var rest := FirstPages(raw, tenant, first.nextCursor, limit, 4);
      VisibleAreListed(raw[0..to], tenant);
      PagesLieBehind(raw, tenant, first.nextCursor, limit, 4);
      assert raw[0..to] == raw[..to];
      SlicesShareNothing(raw, to, first.sessions[0]);
      assert first.sessions[0] in raw[..to];
      RepeatIsNot(first.sessions, rest);
    }
  }

  lemma RepeatIsNot<T>(s: seq<T>, rest: seq<T>)
    requires s != [] && s[0] !in rest
    ensures Times(s, 5) != s + rest
  {
    assert Times(s, 4) == s + Times(s, 3);
    assert Times(s, 4)[0] == s[0] && s[0] in Times(s, 4);
    SamePrefix(s, Times(s, 4), rest);
  }
}
