/**
 What a page receives over several connections to one session, and when its
 bounded deduplication hides that it reconnected.  The stream's address carries
 no cursor, so every connection starts from the beginning; a heartbeat is sent as
 an ordinary frame with an id of its own.

 A heartbeat's id is the position in the run at which it is produced: generated
 ids never repeat and are no event's id.
 */
module BrowserReconnects {
  import opened Prelude
  import opened EventLog
  import opened EventReaders
  import opened BrowserStream

  datatype Tag<I> = OfEvent(id: I) | OfBeat(serial: nat)

  datatype Frame<I> = Frame(tag: Tag<I>, kind: string)

  const HEARTBEAT := "Heartbeat"

  // ------------------------------------------------------- one more connection

  lemma {:induction false} FreshArrive<T>(ids: seq<T>, tail: seq<T>, cap: nat)
    requires NoRepeats(tail) && forall x :: x in tail ==> x !in Unbounded(ids)
    ensures Bounded(ids + tail, cap) == Bounded(ids, cap) + tail
    ensures Unbounded(ids + tail) == Unbounded(ids) + tail
  {
    if tail == [] {
      AppendNothing(ids, tail);
      AppendNothing(Bounded(ids, cap), tail);
      AppendNothing(Unbounded(ids), tail);
    } else {
      var init, last := tail[..|tail| - 1], tail[|tail| - 1];
      InitAndLast(tail);
      FreshArrive(ids, init, cap);
      Associative(ids, init, [last]);
      Associative(Bounded(ids, cap), init, [last]);
      Associative(Unbounded(ids), init, [last]);
      NewArrives(ids + init, last, cap);
    }
  }

  lemma NewArrives<T>(ids: seq<T>, id: T, cap: nat)
    requires id !in Unbounded(ids)
    ensures Bounded(ids + [id], cap) == Bounded(ids, cap) + [id]
    ensures Unbounded(ids + [id]) == Unbounded(ids) + [id]
  {
    OutputsCompared(ids, cap);
    BoundedStep(ids, id, cap);
    UnboundedStep(ids, id);
    if id in LastN(Bounded(ids, cap), cap) {
      WindowIsPart(Bounded(ids, cap), cap, id);
    }
  }

  lemma {:induction false} RememberedArrive<T>(ids: seq<T>, again: seq<T>, out: seq<T>, cap: nat)
    requires Bounded(ids, cap) == out && Unbounded(ids) == out
    requires forall x :: x in again ==> x in LastN(out, cap)
    ensures Bounded(ids + again, cap) == out && Unbounded(ids + again) == out
  {
    if again == [] {
      AppendNothing(ids, again);
    } else {
      var init, last := again[..|again| - 1], again[|again| - 1];
      InitAndLast(again);
      RememberedArrive(ids, init, out, cap);
      Associative(ids, init, [last]);
      OneRemembered(ids + init, last, out, cap);
    }
  }

  lemma OneRemembered<T>(ids: seq<T>, id: T, out: seq<T>, cap: nat)
    requires Bounded(ids, cap) == out && Unbounded(ids) == out && id in LastN(out, cap)
    ensures Bounded(ids + [id], cap) == out && Unbounded(ids + [id]) == out
  {
    BoundedStep(ids, id, cap);
    UnboundedStep(ids, id);
    WindowIsPart(out, cap, id);
  }

  /** Once an id has been delivered twice, no later message undoes it. */
  lemma DivergencePersists<T>(ids: seq<T>, more: seq<T>, cap: nat)
    requires Bounded(ids, cap) != Unbounded(ids)
    ensures Bounded(ids + more, cap) != Unbounded(ids + more)
  {
    BoundedIsDedupIff(ids, cap);
    BoundedIsDedupIff(ids + more, cap);
    var p :| 0 <= p < |ids| && !ReachesBack(ids[..p], ids[p], cap);
    assert (ids + more)[..p] == ids[..p] && (ids + more)[p] == ids[p];
  }

  /** `x` was among the last `age` deliveries. */
  ghost predicate AtMostOld<T>(out: seq<T>, x: T, age: nat) {
    x in LastN(out, age)
  }

  lemma WiderWindow<T>(out: seq<T>, x: T, age: nat, cap: nat)
    requires x in LastN(out, age) && age <= cap
    ensures x in LastN(out, cap)
  {
    var j :| 0 <= j < |LastN(out, age)| && LastN(out, age)[j] == x;
    WithinWindow(out, cap, |out| - |LastN(out, age)| + j);
  }

  ghost predicate AllAtMostOld<T>(out: seq<T>, ids: seq<T>, age: nat) {
    forall k :: 0 <= k < |ids| ==> AtMostOld(out, ids[k], age)
  }

  /**
   A connection that first repeats `r` ids, the oldest of them `age` deliveries
   ago, and then brings new ones: it repeats nothing if and only if it has
   nothing to repeat or the set reaches back that far.
   */
  lemma ConnectionArrives<T>(before: seq<T>, conn: seq<T>, r: nat, age: nat, cap: nat)
    requires Bounded(before, cap) == Unbounded(before)
    requires r <= |conn| && NoRepeats(conn)
    requires forall k :: 0 <= k < r ==> AtMostOld(Unbounded(before), conn[k], age)
    requires r > 0 ==> 0 < age <= |Unbounded(before)| && Unbounded(before)[|Unbounded(before)| - age] == conn[0]
    requires forall k :: r <= k < |conn| ==> conn[k] !in Unbounded(before)
    ensures Bounded(before + conn, cap) == Unbounded(before + conn) <==> r == 0 || age <= cap
    ensures Unbounded(before + conn) == Unbounded(before) + conn[r..]
  {
    var out := Unbounded(before);
    var again, new' := conn[..r], conn[r..];
    assert conn == again + new';
    Associative(before, again, new');
    KnownArrive(before, again);
    FreshArrive(before + again, new', cap);
    if r > 0 && age > cap {
      FirstIsForgotten(before, conn, cap, age);
    } else {
      forall x | x in again
        ensures x in LastN(out, cap)
      {
        var k :| 0 <= k < r && conn[k] == x;
        WiderWindow(out, conn[k], age, cap);
      }
      RememberedArrive(before, again, out, cap);
    }
  }

  lemma {:induction false} KnownArrive<T>(ids: seq<T>, again: seq<T>)
    requires forall x :: x in again ==> x in Unbounded(ids)
    ensures Unbounded(ids + again) == Unbounded(ids)
  {
    if again == [] {
      AppendNothing(ids, again);
    } else {
      var init, last := again[..|again| - 1], again[|again| - 1];
      InitAndLast(again);
      KnownArrive(ids, init);
      Associative(ids, init, [last]);
      UnboundedStep(ids + init, last);
    }
  }

  lemma FirstIsForgotten<T>(before: seq<T>, conn: seq<T>, cap: nat, age: nat)
    requires conn != [] && Bounded(before, cap) == Unbounded(before)
    requires cap < age <= |Unbounded(before)| && Unbounded(before)[|Unbounded(before)| - age] == conn[0]
    ensures Bounded(before + conn, cap) != Unbounded(before + conn)
  {
    OldIsForgotten(before, conn[0], cap, age);
    DivergencePersists(before + [conn[0]], conn[1..], cap);
    ConsBehind(before, conn);
  }

  lemma ConsBehind<T>(a: seq<T>, b: seq<T>)
    requires b != []
    ensures (a + [b[0]]) + b[1..] == a + b
  {
    assert b == [b[0]] + b[1..];
  }

  lemma OldIsForgotten<T>(before: seq<T>, id: T, cap: nat, age: nat)
    requires Bounded(before, cap) == Unbounded(before)
    requires cap < age <= |Unbounded(before)| && Unbounded(before)[|Unbounded(before)| - age] == id
    ensures Bounded(before + [id], cap) != Unbounded(before + [id])
  {
    var out := Unbounded(before);
    UnboundedIsDedup(before);
    OutsideWindow(out, cap, id);
    BoundedStep(before, id, cap);
    UnboundedStep(before, id);
    assert id in out;
  }

  function Max(a: nat, b: nat): (m: nat) { if a > b then a else b }

  /** Without heartbeats: `m` events, a reconnect, `n` events of the same log, perhaps grown in between. */
  lemma ReconnectIsInvisibleIff<T>(all: seq<T>, m: nat, n: nat, cap: nat)
    requires NoRepeats(all) && m <= |all| && n <= |all|
    ensures Unbounded(all[..m] + all[..n]) == all[..Max(m, n)]
    ensures Bounded(all[..m] + all[..n], cap) == all[..Max(m, n)] <==> m <= cap || n == 0
  {
    FirstConnection(all[..m], cap);
    PrefixesMeet(all, m, n);
    ConnectionArrives(all[..m], all[..n], if m < n then m else n, m, cap);
  }

  lemma FirstConnection<T>(ids: seq<T>, cap: nat)
    requires NoRepeats(ids)
    ensures Bounded(ids, cap) == ids && Unbounded(ids) == ids
  {
    FreshArrive([], ids, cap);
    AppendNothing(ids, ids);
  }

  lemma PrefixesMeet<T>(all: seq<T>, m: nat, n: nat)
    requires NoRepeats(all) && m <= |all| && n <= |all|
    ensures var r := if m < n then m else n;
            && all[..m] + all[..n][r..] == all[..Max(m, n)]
            && (forall k :: 0 <= k < r ==> AtMostOld(all[..m], all[..n][k], m))
            && (forall k :: r <= k < n ==> all[..n][k] !in all[..m])
  {
    var r := if m < n then m else n;
    forall k | 0 <= k < r
      ensures AtMostOld(all[..m], all[..n][k], m)
    {
      WithinWindow(all[..m], m, k);
    }
  }

  /** Past the size of the set, a full replay delivers every single id a second time. */
  lemma {:induction false} FullReplayRepeatsAll<T>(all: seq<T>, n: nat, cap: nat)
    requires NoRepeats(all) && |all| > cap && n <= |all|
    ensures Bounded(all + all[..n], cap) == all + all[..n]
    decreases n
  {
    if n == 0 {
      AppendNothing(all, all);
      FirstConnection(all, cap);
    } else {
      FullReplayRepeatsAll(all, n - 1, cap);
      AppendSlice(all, all, n);
      NotInReplayWindow(all, n, cap);
      OutsideWindow(all + all[..n - 1], cap, all[n - 1]);
      BoundedStep(all + all[..n - 1], all[n - 1], cap);
    }
  }

  lemma NotInReplayWindow<T>(all: seq<T>, n: nat, cap: nat)
    requires NoRepeats(all) && |all| > cap && 0 < n <= |all|
    ensures var so := all + all[..n - 1];
            forall k :: 0 <= k < |so| && |so| - cap <= k ==> so[k] != all[n - 1]
  {
  }

  // ------------------------------------------------------ events and heartbeats

  /** The events among what was delivered. */
  function EventTags<I>(tags: seq<Tag<I>>): (r: seq<Tag<I>>)
  {
    if tags == [] then []
    else
      var last := tags[|tags| - 1];
      EventTags(tags[..|tags| - 1]) + (if last.OfEvent? then [last] else [])
  }

  /** How many ids were delivered from the first event on, it included. */
  function SinceFirstEvent<I>(tags: seq<Tag<I>>): (n: nat)
    ensures n <= |tags|
  {
    if tags == [] then 0
    else
      var n := SinceFirstEvent(tags[..|tags| - 1]);
      if n > 0 || tags[|tags| - 1].OfEvent? then n + 1 else 0
  }

  lemma {:induction false} FirstEventIsOldest<I>(tags: seq<Tag<I>>)
    ensures SinceFirstEvent(tags) == 0 <==> EventTags(tags) == []
    ensures EventTags(tags) != [] ==> tags[|tags| - SinceFirstEvent(tags)] == EventTags(tags)[0]
  {
    if tags != [] {
      FirstEventIsOldest(tags[..|tags| - 1]);
    }
  }

  lemma {:induction false} EventsAreThatOld<I>(tags: seq<Tag<I>>, x: Tag<I>)
    requires x in EventTags(tags)
    ensures AtMostOld(tags, x, SinceFirstEvent(tags))
  {
    var init, last := tags[..|tags| - 1], tags[|tags| - 1];
    if x in EventTags(init) {
      EventsAreThatOld(init, x);
      var j :| 0 <= j < |LastN(init, SinceFirstEvent(init))| && LastN(init, SinceFirstEvent(init))[j] == x;
      WithinWindow(tags, SinceFirstEvent(tags), |init| - |LastN(init, SinceFirstEvent(init))| + j);
    } else {
      WithinWindow(tags, SinceFirstEvent(tags), |tags| - 1);
    }
  }

  lemma {:induction false} EventTagsMembers<I>(tags: seq<Tag<I>>, x: Tag<I>)
    ensures x in EventTags(tags) <==> x in tags && x.OfEvent?
  {
    if tags != [] {
      var init, last := tags[..|tags| - 1], tags[|tags| - 1];
      EventTagsMembers(init, x);
      assert tags == init + [last];
    }
  }

  lemma {:induction false} EventTagsAppend<I>(a: seq<Tag<I>>, b: seq<Tag<I>>)
    ensures EventTags(a + b) == EventTags(a) + EventTags(b)
  {
    if b == [] {
      AppendNothing(a, b);
      AppendNothing(EventTags(a), b);
    } else {
      assert (a + b)[..|a + b| - 1] == a + b[..|b| - 1];
      EventTagsAppend(a, b[..|b| - 1]);
      Associative(EventTags(a), EventTags(b[..|b| - 1]), if b[|b| - 1].OfEvent? then [b[|b| - 1]] else []);
    }
  }

  /** The frames that are events. */
  function EventFrames<I>(frames: seq<Frame<I>>): (r: seq<Frame<I>>)
  {
    if frames == [] then []
    else
      var last := frames[|frames| - 1];
      EventFrames(frames[..|frames| - 1]) + (if last.tag.OfEvent? then [last] else [])
  }

  lemma {:induction false} EventFramesAppend<I>(a: seq<Frame<I>>, b: seq<Frame<I>>)
    ensures EventFrames(a + b) == EventFrames(a) + EventFrames(b)
  {
    if b == [] {
      AppendNothing(a, b);
      AppendNothing(EventFrames(a), b);
    } else {
      assert (a + b)[..|a + b| - 1] == a + b[..|b| - 1];
      EventFramesAppend(a, b[..|b| - 1]);
      Associative(EventFrames(a), EventFrames(b[..|b| - 1]), if b[|b| - 1].tag.OfEvent? then [b[|b| - 1]] else []);
    }
  }

  lemma {:induction false} AllEvents<I>(frames: seq<Frame<I>>)
    requires forall k :: 0 <= k < |frames| ==> frames[k].tag.OfEvent?
    ensures EventFrames(frames) == frames
  {
    if frames != [] {
      AllEvents(frames[..|frames| - 1]);
    }
  }

  /** The ids that reach a handler which is called for some kinds of frames only. */
  function Handled<I>(frames: seq<Frame<I>>, handler: string -> bool): (r: seq<Tag<I>>)
  {
    if frames == [] then []
    else
      var last := frames[|frames| - 1];
      Handled(frames[..|frames| - 1], handler) + (if handler(last.kind) then [last.tag] else [])
  }

  lemma {:induction false} HandledAppend<I>(a: seq<Frame<I>>, b: seq<Frame<I>>, handler: string -> bool)
    ensures Handled(a + b, handler) == Handled(a, handler) + Handled(b, handler)
  {
    if b == [] {
      AppendNothing(a, b);
      AppendNothing(Handled(a, handler), []);
    } else {
      assert (a + b)[..|a + b| - 1] == a + b[..|b| - 1];
      HandledAppend(a, b[..|b| - 1], handler);
      Associative(Handled(a, handler), Handled(b[..|b| - 1], handler),
                  if handler(b[|b| - 1].kind) then [b[|b| - 1].tag] else []);
    }
  }

  lemma {:induction false} HandledEvents<I>(frames: seq<Frame<I>>, handler: string -> bool)
    ensures EventTags(Handled(frames, handler)) == Handled(EventFrames(frames), handler)
  {
    if frames != [] {
      var init, last := frames[..|frames| - 1], frames[|frames| - 1];
      HandledEvents(init, handler);
      EventTagsAppend(Handled(init, handler), if handler(last.kind) then [last.tag] else []);
      HandledAppend(EventFrames(init), if last.tag.OfEvent? then [last] else [], handler);
      OneTag(last, handler);
    }
  }

  lemma OneTag<I>(f: Frame<I>, handler: string -> bool)
    ensures EventTags([f.tag]) == if f.tag.OfEvent? then [f.tag] else []
    ensures Handled([f], handler) == if handler(f.kind) then [f.tag] else []
  {
    assert [f.tag][..0] == [] && [f][..0] == [];
  }

  /** The handler of a client that looks at every frame. */
  const ALL: string -> bool := kind => true

  lemma {:induction false} AllHandled<I>(frames: seq<Frame<I>>, handler: string -> bool)
    requires forall kind :: handler(kind)
    ensures |Handled(frames, handler)| == |frames|
    ensures forall k :: 0 <= k < |frames| ==> Handled(frames, handler)[k] == frames[k].tag
  {
    if frames != [] {
      AllHandled(frames[..|frames| - 1], handler);
    }
  }

  ghost predicate Carries<I>(frames: seq<Frame<I>>, x: Tag<I>) {
    exists k :: 0 <= k < |frames| && frames[k].tag == x
  }

  lemma {:induction false} HandledAreCarried<I>(frames: seq<Frame<I>>, handler: string -> bool, x: Tag<I>)
    requires x in Handled(frames, handler)
    ensures Carries(frames, x)
  {
    var init, last := frames[..|frames| - 1], frames[|frames| - 1];
    if x in Handled(init, handler) {
      HandledAreCarried(init, handler, x);
      var k :| 0 <= k < |init| && init[k].tag == x;
      assert frames[k].tag == x;
    } else {
      assert frames[|frames| - 1].tag == x;
    }
  }

  ghost predicate DistinctTags<I>(frames: seq<Frame<I>>) {
    forall i, j :: 0 <= i < j < |frames| ==> frames[i].tag != frames[j].tag
  }

  lemma {:induction false} HandledNoRepeats<I>(frames: seq<Frame<I>>, handler: string -> bool)
    requires DistinctTags(frames)
    ensures NoRepeats(Handled(frames, handler))
  {
    if frames != [] {
      var init, last := frames[..|frames| - 1], frames[|frames| - 1];
      HandledNoRepeats(init, handler);
      if last.tag in Handled(init, handler) {
        HandledAreCarried(init, handler, last.tag);
      }
    }
  }

  // ---------------------------------------------------- one connection's frames

  /**
   A connection has sent `frames`: of the log only its first `n` events, the
   first `q` of them before any heartbeat, and heartbeats from `lo` to `hi`.
   */
  ghost predicate Sends<I>(frames: seq<Frame<I>>, log: seq<Frame<I>>, n: nat, q: nat, lo: nat, hi: nat) {
    && q <= n <= |log|
    && EventFrames(frames) == log[..n]
    && log[..q] <= frames
    && DistinctTags(frames)
    && forall k :: 0 <= k < |frames| && frames[k].tag.OfBeat? ==> lo <= frames[k].tag.serial < hi
  }

  /** A page has been delivered `out`: the handled ones of the first `reached` events, and earlier heartbeats. */
  ghost predicate Delivered<I>(out: seq<Tag<I>>, log: seq<Frame<I>>, reached: nat, now: nat, handler: string -> bool) {
    && reached <= |log|
    && EventTags(out) == Handled(log[..reached], handler)
    && forall x :: x in out && x.OfBeat? ==> x.serial < now
  }

  ghost predicate IsLog<I>(log: seq<Frame<I>>) {
    DistinctTags(log) && forall k :: 0 <= k < |log| ==> log[k].tag.OfEvent?
  }

  lemma HandledPrefix<I>(log: seq<Frame<I>>, q: nat, m: nat, handler: string -> bool)
    requires q <= m <= |log|
    ensures Handled(log[..m], handler) == Handled(log[..q], handler) + Handled(log[q..m], handler)
  {
    assert log[..m] == log[..q] + log[q..m];
    HandledAppend(log[..q], log[q..m], handler);
  }

  /** How the handled ids of a connection split into repeated and new ones. */
  lemma ConnectionSplits<I>(frames: seq<Frame<I>>, log: seq<Frame<I>>, n: nat, q: nat, lo: nat, hi: nat,
                            handler: string -> bool)
    requires IsLog(log) && Sends(frames, log, n, q, lo, hi)
    ensures Handled(frames, handler) == Handled(log[..q], handler) + Handled(frames[q..], handler)
    ensures EventTags(Handled(frames[q..], handler)) == Handled(log[q..n], handler)
    ensures forall x :: x in Handled(frames[q..], handler) && x.OfBeat? ==> lo <= x.serial < hi
    ensures NoRepeats(Handled(frames, handler))
  {
    var head, tail := frames[..q], frames[q..];
    assert frames == head + tail && head == log[..q];
    HandledAppend(head, tail, handler);
    EventFramesAppend(head, tail);
    AllEvents(head);
    assert EventFrames(tail) == log[q..n] by {
      assert log[..n] == log[..q] + log[q..n];
      assert (log[..q] + EventFrames(tail))[q..] == EventFrames(tail);
      assert (log[..q] + log[q..n])[q..] == log[q..n];
    }
    HandledEvents(tail, handler);
    HandledNoRepeats(frames, handler);
    forall x | x in Handled(tail, handler) && x.OfBeat?
      ensures lo <= x.serial < hi
    {
      HandledAreCarried(tail, handler, x);
      var k :| 0 <= k < |tail| && tail[k].tag == x;
      assert frames[q + k] == tail[k];
    }
  }

  /** Nothing behind the repeated events has been delivered before. */
  lemma TailIsNew<I>(frames: seq<Frame<I>>, log: seq<Frame<I>>, n: nat, q: nat, lo: nat, hi: nat,
                     out: seq<Tag<I>>, reached: nat, handler: string -> bool, x: Tag<I>)
    requires IsLog(log) && Sends(frames, log, n, q, lo, hi) && Delivered(out, log, reached, lo, handler)
    requires q == (if reached < n then reached else n)
    requires x in Handled(frames[q..], handler)
    ensures x !in out
  {
    ConnectionSplits(frames, log, n, q, lo, hi, handler);
    if x.OfEvent? && x in out {
      EventTagsMembers(out, x);
      EventTagsMembers(Handled(frames[q..], handler), x);
      HandledAreCarried(log[..reached], handler, x);
      HandledAreCarried(log[q..n], handler, x);
      PartsShareNothing(log, reached, q, n, x);
    }
  }

  lemma PartsShareNothing<I>(log: seq<Frame<I>>, m: nat, q: nat, n: nat, x: Tag<I>)
    requires IsLog(log) && m <= |log| && q <= n <= |log| && q == (if m < n then m else n)
    ensures !(Carries(log[..m], x) && Carries(log[q..n], x))
  {
    forall i, j | 0 <= i < m && 0 <= j < |log[q..n]|
      ensures log[..m][i].tag != log[q..n][j].tag
    {
      assert log[q..n][j] == log[q + j];
    }
  }

  ghost predicate Repeats<T>(before: seq<T>, conn: seq<T>) {
    exists x :: x in conn && x in before
  }

  /** One connection more: when it repeats nothing, and what the page has been delivered then. */
  lemma ConnectionStep<I>(before: seq<Tag<I>>, frames: seq<Frame<I>>, log: seq<Frame<I>>, n: nat, lo: nat, hi: nat,
                          reached: nat, handler: string -> bool, cap: nat)
    requires IsLog(log) && lo <= hi && Delivered(Unbounded(before), log, reached, lo, handler)
    requires Sends(frames, log, n, if reached < n then reached else n, lo, hi)
    ensures var conn := Handled(frames, handler);
            && Delivered(Unbounded(before + conn), log, Max(reached, n), hi, handler)
            && (Bounded(before + conn, cap) == Unbounded(before + conn) <==>
                  && Bounded(before, cap) == Unbounded(before)
                  && (Repeats(before, conn) ==> SinceFirstEvent(Unbounded(before)) <= cap))
  {
    var out, conn := Unbounded(before), Handled(frames, handler);
    var q := if reached < n then reached else n;
    var again, new' := Handled(log[..q], handler), Handled(frames[q..], handler);
    ConnectionSplits(frames, log, n, q, lo, hi, handler);
    HandledPrefix(log, q, reached, handler);
    HandledPrefix(log, q, n, handler);
    forall x | x in new'
      ensures x !in out
    {
      TailIsNew(frames, log, n, q, lo, hi, out, reached, handler, x);
    }
    assert conn[|again|..] == new' && conn[..|again|] == again;
    ArrivalIff(before, conn, again, new', cap);
    EventTagsAppend(out, new');
    if n > reached {
      assert Handled(log[q..reached], handler) == [] by { assert log[q..reached] == []; }
    } else {
      assert Handled(log[q..n], handler) == [] by { assert log[q..n] == []; }
    }
    AppendNothing(EventTags(out), EventTags(new'));
  }

  lemma AgainIsKnown<I>(before: seq<Tag<I>>, again: seq<Tag<I>>)
    requires again <= EventTags(Unbounded(before))
    ensures var out := Unbounded(before);
            && (forall x :: x in again ==> x in out)
            && AllAtMostOld(out, again, SinceFirstEvent(out))
            && (again != [] ==> 0 < SinceFirstEvent(out) && out[|out| - SinceFirstEvent(out)] == again[0])
  {
    var out := Unbounded(before);
    FirstEventIsOldest(out);
    forall k | 0 <= k < |again|
      ensures again[k] in out && AtMostOld(out, again[k], SinceFirstEvent(out))
    {
      EventTagsMembers(out, again[k]);
      EventsAreThatOld(out, again[k]);
    }
  }

  lemma RepeatsIff<I>(before: seq<Tag<I>>, again: seq<Tag<I>>, new': seq<Tag<I>>)
    requires forall x :: x in again ==> x in Unbounded(before)
    requires forall x :: x in new' ==> x !in Unbounded(before)
    ensures Repeats(before, again + new') <==> again != []
  {
    UnboundedIsDedup(before);
    if again != [] {
      assert again[0] in again + new' && again[0] in before;
    }
  }

  /** A client that handles every frame is sent something twice exactly when both connections have got anywhere. */
  lemma RepeatsIffBoth<I>(before: seq<Tag<I>>, frames: seq<Frame<I>>, log: seq<Frame<I>>, n: nat, lo: nat, hi: nat,
                          reached: nat)
    requires IsLog(log) && lo <= hi && Delivered(Unbounded(before), log, reached, lo, ALL)
    requires Sends(frames, log, n, if reached < n then reached else n, lo, hi)
    ensures Repeats(before, Handled(frames, ALL)) <==> reached > 0 && n > 0
  {
    var q := if reached < n then reached else n;
    var again, new' := Handled(log[..q], ALL), Handled(frames[q..], ALL);
    ConnectionSplits(frames, log, n, q, lo, hi, ALL);
    HandledPrefix(log, q, reached, ALL);
    forall x | x in new'
      ensures x !in Unbounded(before)
    {
      TailIsNew(frames, log, n, q, lo, hi, Unbounded(before), reached, ALL, x);
    }
    forall x | x in again
      ensures x in Unbounded(before)
    {
      EventTagsMembers(Unbounded(before), x);
    }
    AllHandled(log[..q], ALL);
    RepeatsIff(before, again, new');
  }

  lemma ArrivalIff<I>(before: seq<Tag<I>>, conn: seq<Tag<I>>, again: seq<Tag<I>>, new': seq<Tag<I>>, cap: nat)
    requires conn == again + new' && NoRepeats(conn) && again <= EventTags(Unbounded(before))
    requires forall x :: x in new' ==> x !in Unbounded(before)
    ensures Unbounded(before + conn) == Unbounded(before) + new'
    ensures Bounded(before + conn, cap) == Unbounded(before + conn) <==>
            && Bounded(before, cap) == Unbounded(before)
            && (Repeats(before, conn) ==> SinceFirstEvent(Unbounded(before)) <= cap)
  {
    AgainIsKnown(before, again);
    RepeatsIff(before, again, new');
    NewPartNoRepeats(again, new');
    TwoParts(before, again, new');
    if Bounded(before, cap) == Unbounded(before) {
      AgainAndNewArrive(before, conn, again, new', SinceFirstEvent(Unbounded(before)), cap);
    } else {
      DivergencePersists(before, conn, cap);
    }
  }

  lemma AgainAndNewArrive<T>(before: seq<T>, conn: seq<T>, again: seq<T>, new': seq<T>, age: nat, cap: nat)
    requires Bounded(before, cap) == Unbounded(before)
    requires conn == again + new' && NoRepeats(conn)
    requires AllAtMostOld(Unbounded(before), again, age)
    requires again != [] ==>
               0 < age <= |Unbounded(before)| && Unbounded(before)[|Unbounded(before)| - age] == again[0]
    requires forall x :: x in new' ==> x !in Unbounded(before)
    ensures Bounded(before + conn, cap) == Unbounded(before + conn) <==> again == [] || age <= cap
  {
    AgainThenNew(again, new', Unbounded(before), age);
    ConnectionArrives(before, conn, |again|, age, cap);
  }

  lemma TwoParts<T>(before: seq<T>, again: seq<T>, new': seq<T>)
    requires forall x :: x in again ==> x in Unbounded(before)
    requires NoRepeats(new') && forall x :: x in new' ==> x !in Unbounded(before)
    ensures Unbounded(before + (again + new')) == Unbounded(before) + new'
  {
    KnownArrive(before, again);
    FreshArrive(before + again, new', 0);
    Associative(before, again, new');
  }

  lemma NewPartNoRepeats<T>(again: seq<T>, new': seq<T>)
    requires NoRepeats(again + new')
    ensures NoRepeats(new')
  {
    assert forall k :: 0 <= k < |new'| ==> new'[k] == (again + new')[|again| + k];
  }

  lemma AgainThenNew<T>(again: seq<T>, new': seq<T>, out: seq<T>, age: nat)
    requires AllAtMostOld(out, again, age)
    requires forall x :: x in new' ==> x !in out
    ensures var conn := again + new';
            && (forall k :: 0 <= k < |again| ==> AtMostOld(out, conn[k], age))
            && (forall k :: |again| <= k < |conn| ==> conn[k] !in out)
            && (again != [] ==> conn[0] == again[0])
            && conn[|again|..] == new'
  {
    var conn := again + new';
    assert forall k :: 0 <= k < |again| ==> conn[k] == again[k];
    assert forall k :: |again| <= k < |conn| ==> conn[k] == new'[k - |again|] && new'[k - |again|] in new';
  }

  // ---------------------------------------------------------- all connections

  /** What all connections of a page deliver, one after the other. */
  function Joined<T>(parts: seq<seq<T>>): (r: seq<T>)
  {
    if parts == [] then [] else Joined(parts[..|parts| - 1]) + parts[|parts| - 1]
  }

  lemma JoinedStep<T>(parts: seq<seq<T>>, c: nat)
    requires 0 < c <= |parts|
    ensures Joined(parts[..c]) == Joined(parts[..c - 1]) + parts[c - 1]
  {
    assert parts[..c][..c - 1] == parts[..c - 1];
  }

  /** Connection `c` repeats nothing, or the set still holds everything since the first event. */
  ghost predicate Unnoticed<I>(parts: seq<seq<Tag<I>>>, c: nat, cap: nat)
    requires c < |parts|
  {
    var before := Joined(parts[..c]);
    Repeats(before, parts[c]) ==> SinceFirstEvent(Unbounded(before)) <= cap
  }

  ghost predicate Hidden<T>(ids: seq<T>, cap: nat) {
    Bounded(ids, cap) == Unbounded(ids)
  }

  ghost predicate HidesNext<I>(parts: seq<seq<Tag<I>>>, c: nat, cap: nat)
    requires c < |parts|
  {
    Hidden(Joined(parts[..c + 1]), cap) <==> Hidden(Joined(parts[..c]), cap) && Unnoticed(parts, c, cap)
  }

  lemma HiddenIff<I>(parts: seq<seq<Tag<I>>>, cap: nat)
    requires forall c :: 0 <= c < |parts| ==> HidesNext(parts, c, cap)
    ensures Bounded(Joined(parts), cap) == Unbounded(Joined(parts)) <==>
            forall c :: 0 <= c < |parts| ==> Unnoticed(parts, c, cap)
  {
    var hidden := (c: nat) => c <= |parts| && Hidden(Joined(parts[..c]), cap);
    var unnoticed := (c: nat) => c < |parts| && Unnoticed(parts, c, cap);
    assert parts[..0] == [];
    forall c | 0 <= c < |parts|
      ensures hidden(c + 1) <==> hidden(c) && unnoticed(c)
    {
      assert HidesNext(parts, c, cap);
    }
    ChainUpTo(hidden, unnoticed, |parts|);
    AppendNothing(parts, parts);
    assert forall c :: 0 <= c < |parts| ==> (unnoticed(c) <==> Unnoticed(parts, c, cap));
  }

  /** A session with one event, idle for `cap` heartbeats: the reconnect shows the event again. */
  lemma IdleSessionIsShownTwice<I>(event: I, beats: seq<Tag<I>>, cap: nat)
    requires |beats| == cap && NoRepeats(beats)
    requires forall k :: 0 <= k < |beats| ==> beats[k].OfBeat?
    ensures var e := OfEvent(event);
            && Bounded([e] + beats + [e], cap) == [e] + beats + [e]
            && Unbounded([e] + beats + [e]) == [e] + beats
  {
    var e := OfEvent(event);
    FirstConnection([e] + beats, cap);
    OutsideWindow([e] + beats, cap, e);
    BoundedStep([e] + beats, e, cap);
    assert ([e] + beats)[0] == e;
    UnboundedStep([e] + beats, e);
  }
}
