/**
 The browser's event stream: deduplication by a bounded set of seen ids
 (`openEventStream`) and the bounded live tail behind it (`startLiveTail`).
 A JavaScript `Set` iterates in insertion order, so it is a sequence here.
 */
module BrowserStream {
  import opened Prelude

  const SEEN_LIMIT: nat := 500
  const TAIL_LIMIT: nat := 50

  /** One message: its data does not parse, or it is an event (`eventId` is "" when absent). */
  datatype Message = Malformed | Parsed(eventId: string, kind: string, occurredAt: string)

  function Key(m: Message): (id: string)
    requires m.Parsed?
  {
    if m.eventId != "" then m.eventId else m.kind + ":" + m.occurredAt
  }

  /** An event's id, or its type and time when it has none. */
  lemma KeyIs(id: string, kind: string, at: string)
    ensures Key(Parsed(id, kind, at)) == if id != "" then id else kind + ":" + at
  {
  }

  function Keys(messages: seq<Message>): (ids: seq<string>)
    ensures |ids| <= |messages|
  {
    if messages == [] then []
    else
      var last := messages[|messages| - 1];
      Keys(messages[..|messages| - 1]) + (if last.Parsed? then [Key(last)] else [])
  }

  /** The ids delivered for a stream of ids, when the last `cap` deliveries are remembered. */
  function Bounded<T(==)>(ids: seq<T>, cap: nat): (out: seq<T>)
  {
    if ids == [] then []
    else
      var out, last := Bounded(ids[..|ids| - 1], cap), ids[|ids| - 1];
      if last in LastN(out, cap) then out else out + [last]
  }

  /** Deduplication that forgets nothing. */
  function Unbounded<T(==)>(ids: seq<T>): (out: seq<T>)
  {
    if ids == [] then []
    else
      var out, last := Unbounded(ids[..|ids| - 1]), ids[|ids| - 1];
      if last in out then out else out + [last]
  }

  ghost predicate NoRepeats<T>(s: seq<T>) {
    forall i, j :: 0 <= i < j < |s| ==> s[i] != s[j]
  }

  lemma BoundedStep<T>(ids: seq<T>, id: T, cap: nat)
    ensures var out := Bounded(ids, cap);
            Bounded(ids + [id], cap) == if id in LastN(out, cap) then out else out + [id]
  {
    assert (ids + [id])[..|ids + [id]| - 1] == ids;
  }

  lemma UnboundedStep<T>(ids: seq<T>, id: T)
    ensures var out := Unbounded(ids);
            Unbounded(ids + [id]) == if id in out then out else out + [id]
  {
    assert (ids + [id])[..|ids + [id]| - 1] == ids;
  }

  lemma WithinWindow<T>(s: seq<T>, n: nat, k: nat)
    requires k < |s| && |s| - n <= k
    ensures s[k] in LastN(s, n)
  {
    assert LastN(s, n)[k - (|s| - |LastN(s, n)|)] == s[k];
  }

  lemma OutsideWindow<T>(s: seq<T>, n: nat, x: T)
    requires forall k :: 0 <= k < |s| && |s| - n <= k ==> s[k] != x
    ensures x !in LastN(s, n)
  {
    assert forall j :: 0 <= j < |LastN(s, n)| ==> LastN(s, n)[j] == s[|s| - |LastN(s, n)| + j];
  }

  lemma WindowIsPart<T>(s: seq<T>, n: nat, x: T)
    requires x in LastN(s, n)
    ensures x in s
  {
    if x !in s {
      OutsideWindow(s, n, x);
    }
  }

  /** Two deliveries of one id are more than `cap` deliveries apart. */
  lemma {:induction false} RepeatsAreFarApart<T>(ids: seq<T>, cap: nat)
    ensures FarApart(Bounded(ids, cap), cap)
  {
    if ids != [] {
      var out, last := Bounded(ids[..|ids| - 1], cap), ids[|ids| - 1];
      RepeatsAreFarApart(ids[..|ids| - 1], cap);
      if last !in LastN(out, cap) {
        forall k | 0 <= k < |out| && |out| - cap <= k
          ensures out[k] != last
        {
          WithinWindow(out, cap, k);
        }
      }
    }
  }

  ghost predicate FarApart<T>(out: seq<T>, cap: nat) {
    forall i, j :: 0 <= i < j < |out| && j - i <= cap ==> out[i] != out[j]
  }

  /** The remembered ids are pairwise distinct. */
  lemma WindowHasNoRepeats<T>(ids: seq<T>, cap: nat)
    ensures NoRepeats(LastN(Bounded(ids, cap), cap))
  {
    RepeatsAreFarApart(ids, cap);
    FarApartWindow(Bounded(ids, cap), cap);
  }

  lemma FarApartWindow<T>(out: seq<T>, cap: nat)
    requires FarApart(out, cap)
    ensures NoRepeats(LastN(out, cap))
  {
    var base := |out| - |LastN(out, cap)|;
    forall i, j | 0 <= i < j < |LastN(out, cap)|
      ensures LastN(out, cap)[i] != LastN(out, cap)[j]
    {
      assert out[base + i] != out[base + j];
    }
  }

  /** Unbounded deduplication keeps exactly the ids of the stream, each once. */
  lemma {:induction false} UnboundedIsDedup<T>(ids: seq<T>)
    ensures NoRepeats(Unbounded(ids))
    ensures forall x :: x in Unbounded(ids) <==> x in ids
  {
    if ids != [] {
      var init, last := ids[..|ids| - 1], ids[|ids| - 1];
      assert ids == init + [last];
      UnboundedIsDedup(init);
    }
  }

  /** Every replayed id is among the last `cap` distinct ids that came before it. */
  ghost predicate ReplaysReachBackAtMost<T>(ids: seq<T>, cap: nat) {
    forall p :: 0 <= p < |ids| ==> ReachesBack(ids[..p], ids[p], cap)
  }

  ghost predicate ReachesBack<T>(before: seq<T>, id: T, cap: nat) {
    id in before ==> id in LastN(Unbounded(before), cap)
  }

  /** The bounded set behaves like an unbounded one exactly when replays reach back at most `cap`. */
  lemma {:induction false} BoundedIsDedupIff<T>(ids: seq<T>, cap: nat)
    ensures Bounded(ids, cap) == Unbounded(ids) <==> ReplaysReachBackAtMost(ids, cap)
  {
    if ids != [] {
      var init, last := ids[..|ids| - 1], ids[|ids| - 1];
      assert ids == init + [last];
      BoundedIsDedupIff(init, cap);
      ReachBackStep(init, last, cap);
      UnboundedIsDedup(init);
      if Bounded(init, cap) != Unbounded(init) {
        DivergenceLasts(init, last, cap);
      } else if last in LastN(Bounded(init, cap), cap) {
        WindowIsPart(Bounded(init, cap), cap, last);
      }
    }
  }

  lemma ReachBackStep<T>(init: seq<T>, last: T, cap: nat)
    ensures ReplaysReachBackAtMost(init + [last], cap)
       <==> ReplaysReachBackAtMost(init, cap) && ReachesBack(init, last, cap)
  {
    var ids := init + [last];
    assert forall p :: 0 <= p < |init| ==> ids[..p] == init[..p] && ids[p] == init[p];
    assert ids[..|init|] == init && ids[|init|] == last;
  }

  /** The bounded output never loses an id, so once it differs it is strictly longer for good. */
  lemma DivergenceLasts<T>(ids: seq<T>, id: T, cap: nat)
    requires Bounded(ids, cap) != Unbounded(ids)
    ensures Bounded(ids + [id], cap) != Unbounded(ids + [id])
  {
    OutputsCompared(ids, cap);
    BoundedStep(ids, id, cap);
    UnboundedStep(ids, id);
    if id in LastN(Bounded(ids, cap), cap) {
      WindowIsPart(Bounded(ids, cap), cap, id);
    }
  }

  /** Same ids, and the bounded output is strictly longer as soon as the two differ. */
  lemma {:induction false} OutputsCompared<T>(ids: seq<T>, cap: nat)
    ensures forall x :: x in Bounded(ids, cap) <==> x in Unbounded(ids)
    ensures |Bounded(ids, cap)| >= |Unbounded(ids)|
    ensures |Bounded(ids, cap)| == |Unbounded(ids)| ==> Bounded(ids, cap) == Unbounded(ids)
  {
    if ids != [] {
      OutputsCompared(ids[..|ids| - 1], cap);
      if ids[|ids| - 1] in LastN(Bounded(ids[..|ids| - 1], cap), cap) {
        WindowIsPart(Bounded(ids[..|ids| - 1], cap), cap, ids[|ids| - 1]);
      }
    }
  }

  // ----------------------------------------------------------------- the page

  /** The messages a page shows for what it received. */
  function Shown(received: seq<Message>): (shown: seq<Message>)
    ensures forall m :: m in shown ==> m.Parsed?
  {
    if received == [] then []
    else
      var shown, last := Shown(received[..|received| - 1]), received[|received| - 1];
      if last.Malformed? || Key(last) in LastN(Keys(shown), SEEN_LIMIT) then shown else shown + [last]
  }

  lemma {:induction false} ShownKeys(received: seq<Message>)
    ensures Keys(Shown(received)) == Bounded(Keys(received), SEEN_LIMIT)
  {
    if received != [] {
      var init, last := received[..|received| - 1], received[|received| - 1];
      ShownKeys(init);
      if last.Parsed? {
        BoundedStep(Keys(init), Key(last), SEEN_LIMIT);
        assert (Shown(init) + [last])[..|Shown(init) + [last]| - 1] == Shown(init);
      } else {
        assert Keys(init) + [] == Keys(init);
      }
    }
  }

  /** What one more message changes. */
  lemma Receive(received: seq<Message>, msg: Message)
    ensures var out := Bounded(Keys(received), SEEN_LIMIT);
            if msg.Malformed? || Key(msg) in LastN(out, SEEN_LIMIT) then
              && Bounded(Keys(received + [msg]), SEEN_LIMIT) == out
              && Shown(received + [msg]) == Shown(received)
            else
              && Bounded(Keys(received + [msg]), SEEN_LIMIT) == out + [Key(msg)]
              && Shown(received + [msg]) == Shown(received) + [msg]
  {
    assert (received + [msg])[..|received + [msg]| - 1] == received;
    ShownKeys(received);
    if msg.Parsed? {
      BoundedStep(Keys(received), Key(msg), SEEN_LIMIT);
    } else {
      assert Keys(received) + [] == Keys(received);
    }
  }

  /** `push` onto a list that keeps `cap` elements, dropping the oldest. */
  function PushBounded<T>(window: seq<T>, x: T, cap: nat): (r: seq<T>)
  {
    if |window + [x]| > cap then (window + [x])[1..] else window + [x]
  }

  /** `x` behind what was there, without the oldest when there are `cap` already. */
  function Pushed<T>(window: seq<T>, x: T, cap: nat): (r: seq<T>)
    ensures |window| <= cap && cap >= 1 ==> |r| <= cap
    ensures |r| > 0 && r[|r| - 1] == x
  {
    (if |window| < cap || window == [] then window else window[1..]) + [x]
  }

  lemma PushBoundedIs<T>(window: seq<T>, x: T, cap: nat)
    requires |window| <= cap && cap >= 1
    ensures PushBounded(window, x, cap) == Pushed(window, x, cap)
  {
  }

  lemma PushBoundedIsLastN<T>(s: seq<T>, x: T, cap: nat)
    requires cap >= 1
    ensures PushBounded(LastN(s, cap), x, cap) == LastN(s + [x], cap)
  {
  }

  /** What a delivered message does to both windows, and what any other message does not. */
  lemma WindowsAfter(received: seq<Message>, msg: Message)
    ensures var seen, tail := LastN(Bounded(Keys(received), SEEN_LIMIT), SEEN_LIMIT),
                              LastN(Shown(received), TAIL_LIMIT);
            var seen' := LastN(Bounded(Keys(received + [msg]), SEEN_LIMIT), SEEN_LIMIT);
            var tail' := LastN(Shown(received + [msg]), TAIL_LIMIT);
            if msg.Malformed? || Key(msg) in seen then
              seen' == seen && tail' == tail && Shown(received + [msg]) == Shown(received)
            else
              && seen' == PushBounded(seen, Key(msg), SEEN_LIMIT) == Pushed(seen, Key(msg), 500)
              && tail' == PushBounded(tail, msg, TAIL_LIMIT) == Pushed(tail, msg, 50)
              && Shown(received + [msg]) == Shown(received) + [msg]
  {
    Receive(received, msg);
    if msg.Parsed? {
      var out, shown := Bounded(Keys(received), SEEN_LIMIT), Shown(received);
      PushBoundedIsLastN(out, Key(msg), SEEN_LIMIT);
      PushBoundedIs(LastN(out, SEEN_LIMIT), Key(msg), SEEN_LIMIT);
      PushBoundedIsLastN(shown, msg, TAIL_LIMIT);
      PushBoundedIs(LastN(shown, TAIL_LIMIT), msg, TAIL_LIMIT);
    }
  }

  class LiveTail {
    var seen: seq<string>
    var liveEvents: seq<Message>
    ghost var received: seq<Message>

    /** The set holds the last 500 delivered ids, the tail the last 50 delivered events. */
    ghost predicate Valid()
      reads this
    {
      && seen == LastN(Bounded(Keys(received), SEEN_LIMIT), SEEN_LIMIT)
      && liveEvents == LastN(Shown(received), TAIL_LIMIT)
    }

    constructor ()
      ensures Valid() && received == []
    {
      seen, liveEvents, received := [], [], [];
    }

    method OnMessage(msg: Message) returns (delivered: bool)
      requires Valid()
      modifies this
      ensures Valid() && received == old(received) + [msg]
      ensures Shown(received) == if delivered then Shown(old(received)) + [msg] else Shown(old(received))
      ensures delivered <==> msg.Parsed? && Key(msg) !in old(seen)
      ensures delivered ==> seen == Pushed(old(seen), Key(msg), 500)
      ensures delivered ==> liveEvents == Pushed(old(liveEvents), msg, 50)
      ensures !delivered ==> seen == old(seen) && liveEvents == old(liveEvents)
    {
      WindowsAfter(received, msg);
      received := received + [msg];
      delivered := msg.Parsed? && Key(msg) !in seen;
      if delivered {
        seen := PushBounded(seen, Key(msg), SEEN_LIMIT);
        liveEvents := PushBounded(liveEvents, msg, TAIL_LIMIT);
      }
    }
  }
}
