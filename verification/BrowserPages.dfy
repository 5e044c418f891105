/**
 From the server's log to the page: the frames each connection of a page is sent
 in a run of the event system, heartbeats included, and what the page makes of
 all its connections together.
 */
module BrowserPages {
  import opened Prelude
  import opened EventLog
  import opened EventReaders
  import opened BrowserStream
  import opened BrowserReconnects

  type Consumers = seq<(Option<SessionId>, Option<EventId>)>

  function FramesOf(events: seq<RuntimeEvent>): (frames: seq<Frame<EventId>>)
    ensures |frames| == |events|
    ensures forall k :: 0 <= k < |frames| ==> frames[k] == Frame(OfEvent(events[k].id), events[k].kind)
  {
    seq(|events|, k requires 0 <= k < |events| => Frame(OfEvent(events[k].id), events[k].kind))
  }

  /** What one step of a reader puts on its stream. */
  function Put(before: Reader, after: Reader, serial: nat): (frames: seq<Frame<EventId>>)
  {
    if after.phase.Heartbeat? && !before.phase.Heartbeat? then [Frame(OfBeat(serial), HEARTBEAT)]
    else if before.seen <= after.seen then FramesOf(after.seen[|before.seen|..])
    else []
  }

  /** Every frame a reader has been sent in a run. */
  function Sent(consumers: Consumers, steps: seq<Step>, i: nat): (frames: seq<Frame<EventId>>)
    requires i < |consumers|
  {
    if steps == [] then []
    else
      var init := steps[..|steps| - 1];
      Sent(consumers, init, i) + Put(Run(consumers, init).readers[i], Run(consumers, steps).readers[i], |init|)
  }

  // ------------------------------------------------------------ along a run

  lemma {:induction false} LogGrows(consumers: Consumers, steps: seq<Step>, t: nat)
    requires t <= |steps|
    ensures Run(consumers, steps[..t]).log <= Run(consumers, steps).log
  {
    if t == |steps| {
      AppendNothing(steps, steps);
    } else {
      var init := steps[..|steps| - 1];
      EarlierPrefix(steps, t);
      LogGrows(consumers, init, t);
      RunKeepsInv(consumers, init);
      LastStep(consumers, steps);
      var log := Run(consumers, init).log;
      if steps[|steps| - 1].Emit? {
        StoreKeepsDistinct(log, steps[|steps| - 1].event);
      }
      assert log <= Run(consumers, steps).log;
    }
  }

  /** A reader not served by step `t` has read the log no earlier than that. */
  lemma {:induction false} FetchedSince(consumers: Consumers, steps: seq<Step>, t: nat, i: nat)
    requires t <= |steps| && i < |consumers| && Run(consumers, steps[..t]).readers[i].fetches == 0
    requires Run(consumers, steps).readers[i].fetches > 0
    ensures |Run(consumers, steps[..t]).log| <= Run(consumers, steps).readers[i].fetchedAt
  {
    if t == |steps| {
      AppendNothing(steps, steps);
    } else {
      var init := steps[..|steps| - 1];
      EarlierPrefix(steps, t);
      LastStep(consumers, steps);
      StepGrows(Run(consumers, init), steps[|steps| - 1], i);
      LogGrows(consumers, init, t);
      if Run(consumers, init).readers[i].fetches > 0 {
        FetchedSince(consumers, init, t, i);
      }
    }
  }

  lemma {:induction false} NothingSent(consumers: Consumers, steps: seq<Step>, i: nat)
    requires i < |consumers| && Run(consumers, steps).readers[i].fetches == 0
    ensures Sent(consumers, steps, i) == [] && Run(consumers, steps).readers[i].seen == []
  {
    RunKeepsInv(consumers, steps);
    assert ReaderInv(Run(consumers, steps).readers[i], Run(consumers, steps).log);
    if steps != [] {
      var init := steps[..|steps| - 1];
      LastStep(consumers, steps);
      StepGrows(Run(consumers, init), steps[|steps| - 1], i);
      NothingSent(consumers, init, i);
    }
  }

  // ------------------------------------------------- what a connection is sent

  /**
   Of the events it has been sent, those already `known` when it started came
   before any heartbeat; its heartbeats are from `lo` to `hi`.
   */
  ghost predicate SentSoFar<I>(sent: seq<Frame<I>>, events: seq<Frame<I>>, known: seq<Frame<I>>, lo: nat, hi: nat) {
    && EventFrames(sent) == events
    && DistinctTags(sent)
    && (forall k :: 0 <= k < |sent| && sent[k].tag.OfBeat? ==> lo <= sent[k].tag.serial < hi)
    && (sent == events || (known <= sent && |known| <= |events|))
  }

  lemma OneFrame<I>(f: Frame<I>)
    ensures EventFrames([f]) == if f.tag.OfEvent? then [f] else []
  {
    assert [f][..0] == [];
  }

  lemma BeatSent<I>(sent: seq<Frame<I>>, events: seq<Frame<I>>, known: seq<Frame<I>>, lo: nat, hi: nat, kind: string)
    requires SentSoFar(sent, events, known, lo, hi) && lo <= hi && known <= events
    ensures SentSoFar(sent + [Frame(OfBeat(hi), kind)], events, known, lo, hi + 1)
  {
    assert known <= sent;
    BeatBehind(sent, Frame(OfBeat(hi), kind), lo, hi);
    LongerPrefix(known, sent, [Frame(OfBeat(hi), kind)]);
  }

  lemma BeatBehind<I>(sent: seq<Frame<I>>, beat: Frame<I>, lo: nat, hi: nat)
    requires DistinctTags(sent) && beat.tag == OfBeat(hi) && lo <= hi
    requires forall k :: 0 <= k < |sent| && sent[k].tag.OfBeat? ==> lo <= sent[k].tag.serial < hi
    ensures EventFrames(sent + [beat]) == EventFrames(sent)
    ensures DistinctTags(sent + [beat])
    ensures forall k :: 0 <= k < |sent + [beat]| && (sent + [beat])[k].tag.OfBeat? ==>
              lo <= (sent + [beat])[k].tag.serial < hi + 1
  {
    EventFramesAppend(sent, [beat]);
    OneFrame(beat);
    AppendNothing(EventFrames(sent), []);
    JoinedDistinct(sent, [beat]);
  }

  lemma LongerPrefix<T>(a: seq<T>, b: seq<T>, c: seq<T>)
    requires a <= b
    ensures a <= b + c
  {
  }

  lemma {:induction false} EventFrameFound<I>(frames: seq<Frame<I>>, k: nat)
    requires k < |frames| && frames[k].tag.OfEvent?
    ensures frames[k] in EventFrames(frames)
  {
    var init, last := frames[..|frames| - 1], frames[|frames| - 1];
    if k < |init| {
      EventFrameFound(init, k);
      assert init[k] == frames[k];
    }
  }

  lemma EventsSent<I>(sent: seq<Frame<I>>, events: seq<Frame<I>>, more: seq<Frame<I>>, known: seq<Frame<I>>,
                      lo: nat, hi: nat)
    requires SentSoFar(sent, events, known, lo, hi) && IsLog(events + more)
    ensures SentSoFar(sent + more, events + more, known, lo, hi + 1)
  {
    var all := events + more;
    assert forall j :: 0 <= j < |more| ==> more[j] == all[|events| + j];
    EventFramesAppend(sent, more);
    AllEvents(more);
    forall k, j | 0 <= k < |sent| && 0 <= j < |more|
      ensures sent[k].tag != more[j].tag
    {
      if sent[k].tag.OfEvent? {
        EventFrameFound(sent, k);
        var i :| 0 <= i < |events| && events[i] == sent[k];
        assert all[i].tag != all[|events| + j].tag;
      }
    }
    JoinedDistinct(sent, more);
    LongerPrefix(if known <= sent then known else [], sent, more);
  }

  lemma JoinedDistinct<I>(a: seq<Frame<I>>, b: seq<Frame<I>>)
    requires DistinctTags(a) && DistinctTags(b)
    requires forall k, j :: 0 <= k < |a| && 0 <= j < |b| ==> a[k].tag != b[j].tag
    ensures DistinctTags(a + b)
  {
  }

  /** From what a connection has been sent to how it meets an earlier one. */
  lemma SentMeets<I>(sent: seq<Frame<I>>, log: seq<Frame<I>>, n: nat, known: nat, reached: nat, lo: nat, hi: nat)
    requires n <= |log| && reached <= known <= |log|
    requires SentSoFar(sent, log[..n], log[..known], lo, hi)
    ensures Sends(sent, log, n, if reached < n then reached else n, lo, hi)
  {
    var q := if reached < n then reached else n;
    if sent == log[..n] {
      assert log[..q] == log[..n][..q];
    } else {
      assert log[..q] == log[..known][..q];
    }
  }

  // ------------------------------------------------------- along a whole run

  /** What a reader of the session from its start can see of a log. */
  function Seeable(log: seq<RuntimeEvent>, session: Option<SessionId>): (r: seq<RuntimeEvent>)
  {
    Scoped(log, session)
  }

  lemma SeeableGrows(log: seq<RuntimeEvent>, more: seq<RuntimeEvent>, session: Option<SessionId>)
    requires log <= more
    ensures Seeable(log, session) <= Seeable(more, session)
  {
    assert more == log + more[|log|..];
    ScopedAppend(log, more[|log|..], session);
  }

  lemma FramesOfAppend(a: seq<RuntimeEvent>, b: seq<RuntimeEvent>)
    ensures FramesOf(a + b) == FramesOf(a) + FramesOf(b)
  {
  }

  lemma FramesOfPrefix(a: seq<RuntimeEvent>, b: seq<RuntimeEvent>)
    requires a <= b
    ensures FramesOf(a) == FramesOf(b)[..|a|] && FramesOf(a) <= FramesOf(b)
  {
  }

  lemma SeeableIsLog(log: seq<RuntimeEvent>, session: Option<SessionId>)
    requires Distinct(log)
    ensures IsLog(FramesOf(Seeable(log, session)))
  {
    ListedDistinct(log);
    ProjectDistinct(Listed(log), session);
  }

  /** A reader from the start has seen a prefix of what there is to see. */
  lemma SeenIsPrefix(consumers: Consumers, steps: seq<Step>, i: nat)
    requires i < |consumers| && consumers[i].1.None?
    ensures Run(consumers, steps).readers[i].seen <= Seeable(Run(consumers, steps).log, consumers[i].0)
  {
    RunKeepsInv(consumers, steps);
    var r := Run(consumers, steps).readers[i];
    if r.fetches > 0 {
      ResumedReadsArePrefix(consumers, steps, i);
    } else {
      assert ReaderInv(r, Run(consumers, steps).log);
    }
  }

  /** A reader at a heartbeat has seen at least what there was when it was first served. */
  lemma HeartbeatCoversKnown(consumers: Consumers, steps: seq<Step>, t: nat, i: nat)
    requires t <= |steps| && i < |consumers| && consumers[i].1.None?
    requires Run(consumers, steps[..t]).readers[i].fetches == 0
    requires Run(consumers, steps).readers[i].phase.Heartbeat?
    ensures Seeable(Run(consumers, steps[..t]).log, consumers[i].0) <= Run(consumers, steps).readers[i].seen
  {
    RunKeepsInv(consumers, steps);
    RunKeepsConsumers(consumers, steps);
    FetchedSince(consumers, steps, t, i);
    LogGrows(consumers, steps, t);
    var s := Run(consumers, steps);
    var r := s.readers[i];
    AppendNothing(r.seen, r.seen);
    SeeableGrows(Run(consumers, steps[..t]).log, s.log[..r.fetchedAt], consumers[i].0);
  }

  /** What a connection not served by step `t` has been sent by the end of the run. */
  lemma {:induction false} SentSince(consumers: Consumers, steps: seq<Step>, t: nat, i: nat)
    requires t <= |steps| && i < |consumers| && consumers[i].1.None?
    requires Run(consumers, steps[..t]).readers[i].fetches == 0
    ensures SentSoFar(Sent(consumers, steps, i), FramesOf(Run(consumers, steps).readers[i].seen),
                      FramesOf(Seeable(Run(consumers, steps[..t]).log, consumers[i].0)), t, |steps|)
  {
    if t == |steps| {
      AppendNothing(steps, steps);
      NothingSent(consumers, steps, i);
    } else {
      var init := steps[..|steps| - 1];
      EarlierPrefix(steps, t);
      SentSince(consumers, init, t, i);
      OneStepSent(consumers, steps, t, i);
    }
  }

  lemma LastSent(consumers: Consumers, steps: seq<Step>, i: nat)
    requires steps != [] && i < |consumers|
    ensures var init := steps[..|steps| - 1];
            var r, r' := Run(consumers, init).readers[i], Run(consumers, steps).readers[i];
            && Sent(consumers, steps, i) == Sent(consumers, init, i) + Put(r, r', |init|)
            && r.seen <= r'.seen
            && (r'.phase.Heartbeat? && !r.phase.Heartbeat? ==> r'.seen == r.seen)
  {
    LastStep(consumers, steps);
    StepGrows(Run(consumers, steps[..|steps| - 1]), steps[|steps| - 1], i);
  }

  lemma OneStepSent(consumers: Consumers, steps: seq<Step>, t: nat, i: nat)
    requires t < |steps| && i < |consumers| && consumers[i].1.None?
    requires Run(consumers, steps[..t]).readers[i].fetches == 0
    requires var init := steps[..|steps| - 1];
             SentSoFar(Sent(consumers, init, i), FramesOf(Run(consumers, init).readers[i].seen),
                       FramesOf(Seeable(Run(consumers, steps[..t]).log, consumers[i].0)), t, |init|)
    ensures SentSoFar(Sent(consumers, steps, i), FramesOf(Run(consumers, steps).readers[i].seen),
                      FramesOf(Seeable(Run(consumers, steps[..t]).log, consumers[i].0)), t, |steps|)
  {
    var init := steps[..|steps| - 1];
    var r, r' := Run(consumers, init).readers[i], Run(consumers, steps).readers[i];
    var known := Seeable(Run(consumers, steps[..t]).log, consumers[i].0);
    LastSent(consumers, steps, i);
    if r'.phase.Heartbeat? {
      HeartbeatCoversKnown(consumers, steps, t, i);
    }
    SeenIsLog(consumers, steps, i);
    PutKeeps(Sent(consumers, init, i), r, r', known, t, |init|);
  }

  /** What a step puts on the stream, seen from the reader's state before and after. */
  lemma PutKeeps(sent: seq<Frame<EventId>>, r: Reader, r': Reader, known: seq<RuntimeEvent>, lo: nat, hi: nat)
    requires SentSoFar(sent, FramesOf(r.seen), FramesOf(known), lo, hi) && lo <= hi
    requires r.seen <= r'.seen && IsLog(FramesOf(r'.seen))
    requires r'.phase.Heartbeat? && !r.phase.Heartbeat? ==> r'.seen == r.seen
    requires r'.phase.Heartbeat? ==> known <= r'.seen
    ensures SentSoFar(sent + Put(r, r', hi), FramesOf(r'.seen), FramesOf(known), lo, hi + 1)
  {
    if r'.phase.Heartbeat? && !r.phase.Heartbeat? {
      FramesOfPrefix(known, r.seen);
      BeatSent(sent, FramesOf(r.seen), FramesOf(known), lo, hi, HEARTBEAT);
    } else {
      var more := r'.seen[|r.seen|..];
      assert r'.seen == r.seen + more;
      FramesOfAppend(r.seen, more);
      EventsSent(sent, FramesOf(r.seen), FramesOf(more), FramesOf(known), lo, hi);
    }
  }

  lemma SeenIsLog(consumers: Consumers, steps: seq<Step>, i: nat)
    requires i < |consumers| && consumers[i].1.None?
    ensures IsLog(FramesOf(Run(consumers, steps).readers[i].seen))
  {
    var s := Run(consumers, steps);
    RunKeepsInv(consumers, steps);
    SeenIsPrefix(consumers, steps, i);
    SeeableIsLog(s.log, consumers[i].0);
    FramesOfPrefix(s.readers[i].seen, Seeable(s.log, consumers[i].0));
  }

  // ------------------------------------------------------------------ the page

  /** One connection of a page: which reader serves it, and up to which step. */
  datatype Connection = Connection(reader: nat, until: nat)

  ghost predicate InRange(consumers: Consumers, steps: seq<Step>, conns: seq<Connection>) {
    forall c :: 0 <= c < |conns| ==> conns[c].reader < |consumers| && conns[c].until <= |steps|
  }

  /** Connections of one page to one session, each from the start, each served only after the one before ended. */
  ghost predicate OnePage(consumers: Consumers, steps: seq<Step>, session: Option<SessionId>,
                          conns: seq<Connection>) {
    && InRange(consumers, steps, conns)
    && forall c :: 0 <= c < |conns| ==> Follows(consumers, steps, session, conns, c)
  }

  /** Connection `c` starts from the beginning, after the one before. */
  ghost predicate Follows(consumers: Consumers, steps: seq<Step>, session: Option<SessionId>,
                          conns: seq<Connection>, c: nat)
    requires InRange(consumers, steps, conns) && c < |conns|
  {
    && consumers[conns[c].reader] == (session, None)
    && Start(conns, c) <= conns[c].until
    && Run(consumers, steps[..Start(conns, c)]).readers[conns[c].reader].fetches == 0
  }

  function Start(conns: seq<Connection>, c: nat): (t: nat)
    requires c <= |conns|
  {
    if c == 0 then 0 else conns[c - 1].until
  }

  /** What each connection delivers to a handler that is called for some kinds of frames only. */
  ghost function Parts(consumers: Consumers, steps: seq<Step>, conns: seq<Connection>, handler: string -> bool)
    : (parts: seq<seq<Tag<EventId>>>)
    requires InRange(consumers, steps, conns)
    ensures |parts| == |conns|
    ensures forall c :: 0 <= c < |parts| ==>
              parts[c] == Handled(Sent(consumers, steps[..conns[c].until], conns[c].reader), handler)
  {
    seq(|conns|, c requires 0 <= c < |conns| =>
      Handled(Sent(consumers, steps[..conns[c].until], conns[c].reader), handler))
  }

  /** How far the first `c` connections of the page have got in the session's events. */
  ghost function Reached(consumers: Consumers, steps: seq<Step>, conns: seq<Connection>, c: nat): (n: nat)
    requires InRange(consumers, steps, conns) && c <= |conns|
  {
    if c == 0 then 0
    else
      var last := conns[c - 1];
      Max(Reached(consumers, steps, conns, c - 1), |Run(consumers, steps[..last.until]).readers[last.reader].seen|)
  }

  lemma SliceOfSlice<T>(s: seq<T>, a: nat, b: nat)
    requires a <= b <= |s|
    ensures s[..b][..a] == s[..a]
  {
  }

  lemma SeeableBy(consumers: Consumers, steps: seq<Step>, session: Option<SessionId>, a: nat, b: nat)
    requires a <= b <= |steps|
    ensures Seeable(Run(consumers, steps[..a]).log, session) <= Seeable(Run(consumers, steps[..b]).log, session)
  {
    SliceOfSlice(steps, a, b);
    LogGrows(consumers, steps[..b], a);
    SeeableGrows(Run(consumers, steps[..a]).log, Run(consumers, steps[..b]).log, session);
  }

  ghost predicate ReachedKnown(consumers: Consumers, steps: seq<Step>, session: Option<SessionId>,
                               conns: seq<Connection>, c: nat)
    requires InRange(consumers, steps, conns) && c <= |conns|
  {
    && Start(conns, c) <= |steps|
    && Reached(consumers, steps, conns, c) <= |Seeable(Run(consumers, steps[..Start(conns, c)]).log, session)|
  }

  lemma ReachedNext(consumers: Consumers, steps: seq<Step>, session: Option<SessionId>,
                    conns: seq<Connection>, c: nat)
    requires InRange(consumers, steps, conns) && 0 < c <= |conns|
    requires Follows(consumers, steps, session, conns, c - 1)
    requires ReachedKnown(consumers, steps, session, conns, c - 1)
    ensures ReachedKnown(consumers, steps, session, conns, c)
  {
    SeeableBy(consumers, steps, session, Start(conns, c - 1), conns[c - 1].until);
    SeenIsKnown(consumers, steps, session, conns[c - 1]);
  }

  lemma {:induction false} ReachedIsKnown(consumers: Consumers, steps: seq<Step>, session: Option<SessionId>,
                                          conns: seq<Connection>, c: nat)
    requires OnePage(consumers, steps, session, conns) && c <= |conns|
    ensures ReachedKnown(consumers, steps, session, conns, c)
  {
    if c > 0 {
      ReachedIsKnown(consumers, steps, session, conns, c - 1);
      assert Follows(consumers, steps, session, conns, c - 1);
      ReachedNext(consumers, steps, session, conns, c);
    }
  }

  lemma SeenIsKnown(consumers: Consumers, steps: seq<Step>, session: Option<SessionId>, conn: Connection)
    requires conn.reader < |consumers| && consumers[conn.reader] == (session, None) && conn.until <= |steps|
    ensures |Run(consumers, steps[..conn.until]).readers[conn.reader].seen|
         <= |Seeable(Run(consumers, steps[..conn.until]).log, session)|
  {
    SeenIsPrefix(consumers, steps[..conn.until], conn.reader);
  }

  /** One connection of the page, put in terms of the session's events as frames. */
  lemma ConnectionSends(consumers: Consumers, steps: seq<Step>, session: Option<SessionId>, conn: Connection,
                        lo: nat, reached: nat)
    requires conn.reader < |consumers| && consumers[conn.reader] == (session, None)
    requires lo <= conn.until <= |steps|
    requires Run(consumers, steps[..lo]).readers[conn.reader].fetches == 0
    requires reached <= |Seeable(Run(consumers, steps[..lo]).log, session)|
    ensures var seen := Run(consumers, steps[..conn.until]).readers[conn.reader].seen;
            Sends(Sent(consumers, steps[..conn.until], conn.reader),
                  FramesOf(Seeable(Run(consumers, steps).log, session)), |seen|,
                  if reached < |seen| then reached else |seen|, lo, conn.until)
  {
    var part := steps[..conn.until];
    var seen := Run(consumers, part).readers[conn.reader].seen;
    var known, all := Seeable(Run(consumers, steps[..lo]).log, session), Seeable(Run(consumers, steps).log, session);
    SliceOfSlice(steps, lo, conn.until);
    SentSince(consumers, part, lo, conn.reader);
    SeenIsPrefix(consumers, part, conn.reader);
    AppendNothing(steps, steps);
    SeeableBy(consumers, steps, session, conn.until, |steps|);
    SeeableBy(consumers, steps, session, lo, |steps|);
    FramesOfPrefix(seen, all);
    FramesOfPrefix(known, all);
    SentMeets(Sent(consumers, part, conn.reader), FramesOf(all), |seen|, |known|, reached, lo, conn.until);
  }

  /** Connection `c` of a page, after what the ones before it have delivered. */
  lemma OneConnection(consumers: Consumers, steps: seq<Step>, session: Option<SessionId>, conns: seq<Connection>,
                      c: nat, before: seq<Tag<EventId>>, handler: string -> bool, cap: nat)
    requires OnePage(consumers, steps, session, conns) && c < |conns|
    requires Delivered(Unbounded(before), FramesOf(Seeable(Run(consumers, steps).log, session)),
                       Reached(consumers, steps, conns, c), Start(conns, c), handler)
    ensures var part := Handled(Sent(consumers, steps[..conns[c].until], conns[c].reader), handler);
            && Delivered(Unbounded(before + part), FramesOf(Seeable(Run(consumers, steps).log, session)),
                         Reached(consumers, steps, conns, c + 1), Start(conns, c + 1), handler)
            && (Bounded(before + part, cap) == Unbounded(before + part) <==>
                  && Bounded(before, cap) == Unbounded(before)
                  && (Repeats(before, part) ==> SinceFirstEvent(Unbounded(before)) <= cap))
  {
    var conn, lo, reached := conns[c], Start(conns, c), Reached(consumers, steps, conns, c);
    ReachedIsKnown(consumers, steps, session, conns, c);
    assert Follows(consumers, steps, session, conns, c);
    ConnectionSends(consumers, steps, session, conn, lo, reached);
    RunKeepsInv(consumers, steps);
    SeeableIsLog(Run(consumers, steps).log, session);
    ConnectionStep(before, Sent(consumers, steps[..conn.until], conn.reader),
                   FramesOf(Seeable(Run(consumers, steps).log, session)),
                   |Run(consumers, steps[..conn.until]).readers[conn.reader].seen|,
                   lo, conn.until, reached, handler, cap);
  }

  /**
   With nothing forgotten, the page has been delivered the handled ones of a
   prefix of the session's events, each once and in order, and heartbeats.
   */
  ghost predicate DeliveredUpTo(consumers: Consumers, steps: seq<Step>, session: Option<SessionId>,
                                conns: seq<Connection>, c: nat, handler: string -> bool)
    requires InRange(consumers, steps, conns) && c <= |conns|
  {
    Delivered(Unbounded(Joined(Parts(consumers, steps, conns, handler)[..c])),
              FramesOf(Seeable(Run(consumers, steps).log, session)),
              Reached(consumers, steps, conns, c), Start(conns, c), handler)
  }

  lemma DeliveredAtStart(consumers: Consumers, steps: seq<Step>, session: Option<SessionId>,
                         conns: seq<Connection>, handler: string -> bool)
    requires InRange(consumers, steps, conns)
    ensures DeliveredUpTo(consumers, steps, session, conns, 0, handler)
  {
    var log := FramesOf(Seeable(Run(consumers, steps).log, session));
    assert Parts(consumers, steps, conns, handler)[..0] == [] && log[..0] == [];
  }

  lemma DeliveredNext(consumers: Consumers, steps: seq<Step>, session: Option<SessionId>,
                      conns: seq<Connection>, c: nat, handler: string -> bool)
    requires OnePage(consumers, steps, session, conns) && 0 < c <= |conns|
    requires DeliveredUpTo(consumers, steps, session, conns, c - 1, handler)
    ensures DeliveredUpTo(consumers, steps, session, conns, c, handler)
  {
    var parts := Parts(consumers, steps, conns, handler);
    OneConnection(consumers, steps, session, conns, c - 1, Joined(parts[..c - 1]), handler, 0);
    JoinedStep(parts, c);
  }

  lemma {:induction false} PageDelivered(consumers: Consumers, steps: seq<Step>, session: Option<SessionId>,
                                         conns: seq<Connection>, c: nat, handler: string -> bool)
    requires OnePage(consumers, steps, session, conns) && c <= |conns|
    ensures DeliveredUpTo(consumers, steps, session, conns, c, handler)
  {
    if c == 0 {
      DeliveredAtStart(consumers, steps, session, conns, handler);
    } else {
      PageDelivered(consumers, steps, session, conns, c - 1, handler);
      DeliveredNext(consumers, steps, session, conns, c, handler);
    }
  }

  /**
   In every run, over all its connections, the page hides that it reconnected if
   and only if every connection that repeats something starts when at most `cap`
   ids, heartbeats included, have been delivered since the first event.
   */
  lemma ReconnectsAreHiddenIff(consumers: Consumers, steps: seq<Step>, session: Option<SessionId>,
                               conns: seq<Connection>, handler: string -> bool, cap: nat)
    requires OnePage(consumers, steps, session, conns)
    ensures var parts := Parts(consumers, steps, conns, handler);
            Bounded(Joined(parts), cap) == Unbounded(Joined(parts)) <==>
            forall c :: 0 <= c < |parts| ==> Unnoticed(parts, c, cap)
  {
    var parts := Parts(consumers, steps, conns, handler);
    forall c | 0 <= c < |parts|
      ensures HidesNext(parts, c, cap)
    {
      ConnectionHidesNext(consumers, steps, session, conns, c, handler, cap);
    }
    HiddenIff(parts, cap);
  }

  lemma ConnectionHidesNext(consumers: Consumers, steps: seq<Step>, session: Option<SessionId>,
                            conns: seq<Connection>, c: nat, handler: string -> bool, cap: nat)
    requires OnePage(consumers, steps, session, conns) && c < |conns|
    ensures HidesNext(Parts(consumers, steps, conns, handler), c, cap)
  {
    var parts := Parts(consumers, steps, conns, handler);
    PageDelivered(consumers, steps, session, conns, c, handler);
    OneConnection(consumers, steps, session, conns, c, Joined(parts[..c]), handler, cap);
    JoinedStep(parts, c + 1);
  }

  // ----------------------------------------------------- what reaches `onmessage`

  /** Section 9.2.6: a frame is dispatched by its own event type, and as `message` only without one. */
  predicate OnMessage(kind: string) {
    kind == "" || kind == "message"
  }

  lemma {:induction false} HandledNothingIff<I>(frames: seq<Frame<I>>, handler: string -> bool)
    ensures Handled(frames, handler) == [] <==> forall k :: 0 <= k < |frames| ==> !handler(frames[k].kind)
  {
    if frames != [] {
      var init, last := frames[..|frames| - 1], frames[|frames| - 1];
      HandledNothingIff(init, handler);
      assert forall k :: 0 <= k < |init| ==> frames[k] == init[k];
      assert frames[|init|] == last;
    }
  }

  lemma HeartbeatIsNamed()
    ensures !OnMessage(HEARTBEAT)
  {
    assert |HEARTBEAT| == 9 && |"message"| == 7;
  }

  lemma {:induction false} BeatsAreHeartbeats(consumers: Consumers, steps: seq<Step>, i: nat)
    requires i < |consumers|
    ensures forall k :: 0 <= k < |Sent(consumers, steps, i)| && Sent(consumers, steps, i)[k].tag.OfBeat? ==>
              Sent(consumers, steps, i)[k].kind == HEARTBEAT
  {
    if steps != [] {
      BeatsAreHeartbeats(consumers, steps[..|steps| - 1], i);
    }
  }

  lemma {:induction false} EventFramesAreSent<I>(frames: seq<Frame<I>>, f: Frame<I>)
    requires f in EventFrames(frames)
    ensures f in frames && f.tag.OfEvent?
  {
    var init, last := frames[..|frames| - 1], frames[|frames| - 1];
    if f in EventFrames(init) {
      EventFramesAreSent(init, f);
    }
  }

  /** When heartbeats are not handled, the events decide. */
  lemma EventsDecide<I>(sent: seq<Frame<I>>, handler: string -> bool)
    requires forall k :: 0 <= k < |sent| && sent[k].tag.OfBeat? ==> !handler(sent[k].kind)
    ensures Handled(sent, handler) == [] <==> Handled(EventFrames(sent), handler) == []
  {
    var events := EventFrames(sent);
    HandledNothingIff(sent, handler);
    HandledNothingIff(events, handler);
    forall k | 0 <= k < |sent| && handler(sent[k].kind)
      ensures exists n :: 0 <= n < |events| && handler(events[n].kind)
    {
      EventFrameFound(sent, k);
    }
    forall n | 0 <= n < |events|
      ensures events[n] in sent
    {
      EventFramesAreSent(sent, events[n]);
    }
  }

  /** A connection delivers something to `onmessage` exactly when it has seen an event of that very kind. */
  lemma OnMessageOfConnection(consumers: Consumers, steps: seq<Step>, i: nat)
    requires i < |consumers| && consumers[i].1.None?
    ensures Handled(Sent(consumers, steps, i), OnMessage) == [] <==>
            NoneForOnMessage(Run(consumers, steps).readers[i].seen)
  {
    var seen := Run(consumers, steps).readers[i].seen;
    SentEvents(consumers, steps, i);
    HeartbeatIsNamed();
    BeatsAreHeartbeats(consumers, steps, i);
    EventsDecide(Sent(consumers, steps, i), OnMessage);
    HandledNothingIff(FramesOf(seen), OnMessage);
    assert forall k :: 0 <= k < |seen| ==> FramesOf(seen)[k].kind == seen[k].kind;
  }

  lemma SentEvents(consumers: Consumers, steps: seq<Step>, i: nat)
    requires i < |consumers| && consumers[i].1.None?
    ensures EventFrames(Sent(consumers, steps, i)) == FramesOf(Run(consumers, steps).readers[i].seen)
  {
    assert steps[..0] == [];
    SentSince(consumers, steps, 0, i);
  }

  lemma {:induction false} JoinedNothingIff<T>(parts: seq<seq<T>>)
    ensures Joined(parts) == [] <==> forall c :: 0 <= c < |parts| ==> parts[c] == []
  {
    if parts != [] {
      var init := parts[..|parts| - 1];
      JoinedNothingIff(init);
      assert forall c :: 0 <= c < |init| ==> init[c] == parts[c];
    }
  }

  predicate NoneForOnMessage(events: seq<RuntimeEvent>) {
    forall e :: e in events ==> e.kind != "" && e.kind != "message"
  }

  /** Every frame is named, so `onmessage` is called for the events of type `message` and for nothing else. */
  lemma OnMessageReceivesNothingIff(consumers: Consumers, steps: seq<Step>, session: Option<SessionId>,
                                    conns: seq<Connection>)
    requires OnePage(consumers, steps, session, conns)
    ensures Joined(Parts(consumers, steps, conns, OnMessage)) == [] <==>
            forall c :: 0 <= c < |conns| ==>
              NoneForOnMessage(Run(consumers, steps[..conns[c].until]).readers[conns[c].reader].seen)
  {
    JoinedNothingIff(Parts(consumers, steps, conns, OnMessage));
    forall c | 0 <= c < |conns|
      ensures Parts(consumers, steps, conns, OnMessage)[c] == [] <==>
              NoneForOnMessage(Run(consumers, steps[..conns[c].until]).readers[conns[c].reader].seen)
    {
      assert Follows(consumers, steps, session, conns, c);
      OnMessageOfConnection(consumers, steps[..conns[c].until], conns[c].reader);
    }
  }

  // ------------------------------------------------------------- the shown page

  function Named<S, T>(ids: seq<S>, name: S -> T): (names: seq<T>)
    ensures |names| == |ids| && forall k :: 0 <= k < |ids| ==> names[k] == name(ids[k])
  {
    seq(|ids|, k requires 0 <= k < |ids| => name(ids[k]))
  }

  ghost predicate Injective<S, T>(name: S -> T, ids: seq<S>) {
    forall x, y :: x in ids && y in ids && name(x) == name(y) ==> x == y
  }

  lemma NamedAppend<S, T>(a: seq<S>, x: S, name: S -> T)
    ensures Named(a + [x], name) == Named(a, name) + [name(x)]
  {
  }

  lemma NamedMember<S, T>(ids: seq<S>, x: S, name: S -> T)
    requires forall y :: y in ids && name(x) == name(y) ==> x == y
    ensures name(x) in Named(ids, name) <==> x in ids
  {
    if x in ids {
      var k :| 0 <= k < |ids| && ids[k] == x;
      assert Named(ids, name)[k] == name(x);
    }
    if name(x) in Named(ids, name) {
      var k :| 0 <= k < |Named(ids, name)| && Named(ids, name)[k] == name(x);
      assert ids[k] in ids;
    }
  }

  lemma NamedWindow<S, T>(ids: seq<S>, n: nat, name: S -> T)
    ensures LastN(Named(ids, name), n) == Named(LastN(ids, n), name)
  {
  }

  /** Deduplication does not care what ids look like. */
  lemma {:induction false} DedupOfNamed<S, T>(ids: seq<S>, name: S -> T, cap: nat)
    requires Injective(name, ids)
    ensures Bounded(Named(ids, name), cap) == Named(Bounded(ids, cap), name)
    ensures Unbounded(Named(ids, name)) == Named(Unbounded(ids), name)
  {
    if ids != [] {
      var init, last := ids[..|ids| - 1], ids[|ids| - 1];
      InitAndLast(ids);
      DedupOfNamed(init, name, cap);
      NamedAppend(init, last, name);
      OneNamed(init, last, name, cap);
    }
  }

  lemma OneNamed<S, T>(init: seq<S>, last: S, name: S -> T, cap: nat)
    requires Injective(name, init + [last])
    requires Bounded(Named(init, name), cap) == Named(Bounded(init, cap), name)
    requires Unbounded(Named(init, name)) == Named(Unbounded(init), name)
    ensures Bounded(Named(init, name) + [name(last)], cap) == Named(Bounded(init + [last], cap), name)
    ensures Unbounded(Named(init, name) + [name(last)]) == Named(Unbounded(init + [last]), name)
  {
    forall y | y in Bounded(init, cap) && name(last) == name(y)
      ensures last == y
    {
      DeliveredIsReceived(init, cap, y);
      ToldApart(init, last, name, y);
    }
    forall y | y in Unbounded(init) && name(last) == name(y)
      ensures last == y
    {
      DeliveredIsReceived(init, cap, y);
      ToldApart(init, last, name, y);
    }
    OneNamedBounded(init, last, name, cap);
    OneNamedUnbounded(init, last, name);
  }

  lemma ToldApart<S, T>(init: seq<S>, last: S, name: S -> T, y: S)
    requires Injective(name, init + [last]) && y in init && name(last) == name(y)
    ensures last == y
  {
    assert last in init + [last] && y in init + [last];
  }

  lemma OneNamedBounded<S, T>(init: seq<S>, last: S, name: S -> T, cap: nat)
    requires forall y :: y in Bounded(init, cap) && name(last) == name(y) ==> last == y
    requires Bounded(Named(init, name), cap) == Named(Bounded(init, cap), name)
    ensures Bounded(Named(init, name) + [name(last)], cap) == Named(Bounded(init + [last], cap), name)
  {
    var out := Bounded(init, cap);
    forall y | y in LastN(out, cap)
      ensures y in out
    {
      WindowIsPart(out, cap, y);
    }
    NamedMember(LastN(out, cap), last, name);
    NamedWindow(out, cap, name);
    BoundedStep(init, last, cap);
    BoundedStep(Named(init, name), name(last), cap);
    NamedAppend(out, last, name);
  }

  lemma OneNamedUnbounded<S, T>(init: seq<S>, last: S, name: S -> T)
    requires forall y :: y in Unbounded(init) && name(last) == name(y) ==> last == y
    requires Unbounded(Named(init, name)) == Named(Unbounded(init), name)
    ensures Unbounded(Named(init, name) + [name(last)]) == Named(Unbounded(init + [last]), name)
  {
    NamedMember(Unbounded(init), last, name);
    UnboundedStep(init, last);
    UnboundedStep(Named(init, name), name(last));
    NamedAppend(Unbounded(init), last, name);
  }

  lemma NamedIsInjective<S, T>(a: seq<S>, b: seq<S>, name: S -> T)
    requires Injective(name, a + b)
    ensures Named(a, name) == Named(b, name) <==> a == b
  {
    if Named(a, name) == Named(b, name) {
      assert |a| == |b|;
      forall k | 0 <= k < |a|
        ensures a[k] == b[k]
      {
        assert Named(a, name)[k] == Named(b, name)[k];
        assert a[k] in a + b && b[k] in a + b;
      }
    }
  }

  /**
   And what the page shows: for messages whose keys are those ids under any
   names that tell them apart, every id once if and only if no reconnect is noticed.
   */
  lemma PageShowsOnceIff(consumers: Consumers, steps: seq<Step>, session: Option<SessionId>, conns: seq<Connection>,
                         handler: string -> bool, messages: seq<Message>, name: Tag<EventId> -> string)
    requires OnePage(consumers, steps, session, conns)
    requires var all := Joined(Parts(consumers, steps, conns, handler));
             Keys(messages) == Named(all, name) && Injective(name, all)
    ensures var parts := Parts(consumers, steps, conns, handler);
            Keys(Shown(messages)) == Named(Unbounded(Joined(parts)), name) <==>
            forall c :: 0 <= c < |parts| ==> Unnoticed(parts, c, SEEN_LIMIT)
  {
    var all := Joined(Parts(consumers, steps, conns, handler));
    ReconnectsAreHiddenIff(consumers, steps, session, conns, handler, SEEN_LIMIT);
    ShownKeys(messages);
    DedupOfNamed(all, name, SEEN_LIMIT);
    DeliveredAreReceived(all, name);
    NamedIsInjective(Bounded(all, SEEN_LIMIT), Unbounded(all), name);
  }

  lemma DeliveredAreReceived<S, T>(all: seq<S>, name: S -> T)
    requires Injective(name, all)
    ensures Injective(name, Bounded(all, SEEN_LIMIT) + Unbounded(all))
  {
    var both := Bounded(all, SEEN_LIMIT) + Unbounded(all);
    forall x | x in both
      ensures x in all
    {
      var k :| 0 <= k < |both| && both[k] == x;
      DeliveredIsReceived(all, SEEN_LIMIT, x);
    }
  }

  lemma DeliveredIsReceived<S>(ids: seq<S>, cap: nat, x: S)
    ensures x in Bounded(ids, cap) <==> x in ids
    ensures x in Unbounded(ids) <==> x in ids
  {
    OutputsCompared(ids, cap);
    UnboundedIsDedup(ids);
  }
}
