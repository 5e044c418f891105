/**
 The chat send queue: `sendChat`, `deliverChat` and the `finally` that starts the
 next message.  `nextTick` runs its callback before any further user event, so a
 scheduled hand-off is the next thing that happens; what would go wrong
 otherwise is stated too.
 */
module ChatQueue {

  /** How a delivery ends: it worked, it failed but the chat was reloaded, or it failed outright. */
  datatype Outcome = Succeeded | Recovered | Lost

  /**
   `handOff` holds a message taken off the queue whose delivery is scheduled.
   `submitted`, `started` and `settled` are history.
   */
  datatype Chat = Chat(
    input: string, sending: bool, queue: seq<string>, inFlight: seq<string>, handOff: seq<string>,
    submitted: seq<string>, started: seq<string>, settled: seq<string>)

  datatype Step =
    | Type(text: string)        // the user edits the input box
    | Send                      // the user presses send
    | Settle(outcome: Outcome)  // the oldest delivery in flight ends
    | HandOff                   // the scheduled callback runs

  const EMPTY := Chat("", false, [], [], [], [], [], [])

  /** White space in the sense of JavaScript's `trim`. */
  predicate IsJsSpace(c: char) {
    || '\U{0009}' <= c <= '\U{000d}'
    || c in {'\U{0020}', '\U{00a0}', '\U{1680}', '\U{2028}', '\U{2029}', '\U{202f}', '\U{205f}', '\U{3000}', '\U{feff}'}
    || '\U{2000}' <= c <= '\U{200a}'
  }

  /** By code point: what ECMAScript counts as white space or line terminator. */
  lemma JsSpacesAre(c: char)
    ensures IsJsSpace(c) <==> c as int in {9, 10, 11, 12, 13, 32, 160, 5760,
                                           8192, 8193, 8194, 8195, 8196, 8197, 8198, 8199, 8200, 8201, 8202,
                                           8232, 8233, 8239, 8287, 12288, 65279}
  {
  }

  function Trim(s: string): (r: string)
    ensures r != "" ==> !IsJsSpace(r[0]) && !IsJsSpace(r[|r| - 1])
    ensures r == "" <==> forall c :: c in s ==> IsJsSpace(c)
  {
    if s == "" then ""
    else if IsJsSpace(s[0]) then Trim(s[1..])
    else if IsJsSpace(s[|s| - 1]) then Trim(s[..|s| - 1])
    else s
  }

  function Deliver(c: Chat, text: string): (c': Chat)
  {
    c.(sending := true, inFlight := c.inFlight + [text], started := c.started + [text])
  }

  function Sent(c: Chat): (c': Chat)
  {
    var text := Trim(c.input);
    if text == "" then c
    else
      var taken := c.(input := "", submitted := c.submitted + [text]);
      if c.sending then taken.(queue := c.queue + [text]) else Deliver(taken, text)
  }

  function Settled(c: Chat, outcome: Outcome): (c': Chat)
  {
    if c.inFlight == [] then c
    else
      var text := c.inFlight[0];
      var done := c.(inFlight := c.inFlight[1..], settled := c.settled + [text], sending := false,
                     input := if outcome.Lost? then text else c.input);
      if c.queue == [] then done
      else done.(queue := c.queue[1..], handOff := c.handOff + [c.queue[0]])
  }

  function HandedOff(c: Chat): (c': Chat)
  {
    if c.handOff == [] then c else Deliver(c.(handOff := c.handOff[1..]), c.handOff[0])
  }

  function Apply(c: Chat, step: Step): (c': Chat)
  {
    match step
    case Type(text) => c.(input := text)
    case Send => Sent(c)
    case Settle(outcome) => Settled(c, outcome)
    case HandOff => HandedOff(c)
  }

  function Run(steps: seq<Step>): (c: Chat)
  {
    if steps == [] then EMPTY else Apply(Run(steps[..|steps| - 1]), steps[|steps| - 1])
  }

  /** A scheduled hand-off runs before anything else happens. */
  ghost predicate TicksFirst(steps: seq<Step>) {
    forall k :: 0 <= k < |steps| && Run(steps[..k]).handOff != [] ==> steps[k].HandOff?
  }

  ghost predicate Inv(c: Chat) {
    && |c.inFlight| + |c.handOff| <= 1
    && (c.sending <==> c.inFlight != [])
    && c.started == c.settled + c.inFlight
    && c.submitted == c.started + c.handOff + c.queue
    && (c.inFlight == [] && c.handOff == [] ==> c.queue == [])
  }

  lemma StepKeepsInv(c: Chat, step: Step)
    requires Inv(c) && (c.handOff != [] ==> step.HandOff?)
    ensures Inv(Apply(c, step))
  {
    match step
    case Type(_) =>
    case Send => SendKeepsInv(c);
    case Settle(outcome) => SettleKeepsInv(c, outcome);
    case HandOff => HandOffKeepsInv(c);
  }

  lemma SendKeepsInv(c: Chat)
    requires Inv(c) && c.handOff == []
    ensures Inv(Sent(c))
  {
    var text := Trim(c.input);
    if c.sending {
      assert c.started + [] + (c.queue + [text]) == (c.started + [] + c.queue) + [text];
    } else {
      assert c.submitted == c.started == c.settled;
      assert c.started + [text] + [] + [] == c.started + [text];
    }
  }

  lemma SettleKeepsInv(c: Chat, outcome: Outcome)
    requires Inv(c) && c.handOff == []
    ensures Inv(Settled(c, outcome))
  {
    if c.inFlight != [] {
      assert c.inFlight == [c.inFlight[0]] && c.inFlight[1..] == [];
      assert c.settled + [c.inFlight[0]] + [] == c.started;
      if c.queue != [] {
        assert c.queue == [c.queue[0]] + c.queue[1..];
        assert c.started + [c.queue[0]] + c.queue[1..] == c.started + [] + c.queue;
      }
    }
  }

  lemma HandOffKeepsInv(c: Chat)
    requires Inv(c)
    ensures Inv(HandedOff(c))
  {
    if c.handOff != [] {
      assert c.handOff == [c.handOff[0]] && c.handOff[1..] == [];
      assert c.started + [c.handOff[0]] + [] + c.queue == c.started + c.handOff + c.queue;
    }
  }

  /**
   In every run at most one message is in flight, and submitted == started ++
   handed off ++ queued: messages start in the order submitted, none is lost or
   repeated, however the deliveries end.
   */
  lemma {:induction false} OneInFlightInOrder(steps: seq<Step>)
    requires TicksFirst(steps)
    ensures Inv(Run(steps))
  {
    if steps != [] {
      var init := steps[..|steps| - 1];
      forall k | 0 <= k < |init| && Run(init[..k]).handOff != []
        ensures init[k].HandOff?
      {
        assert steps[..k] == init[..k] && steps[k] == init[k];
      }
      OneInFlightInOrder(init);
      StepKeepsInv(Run(init), steps[|steps| - 1]);
    }
  }

  /** A send slipped in between completion and hand-off puts two messages in flight, out of order. */
  lemma SendBeforeHandOffOverlaps(c: Chat)
    requires Inv(c) && c.handOff != [] && Trim(c.input) != ""
    ensures var c' := HandedOff(Sent(c));
            && c'.inFlight == [Trim(c.input), c.handOff[0]]
            && c'.started == c.started + c'.inFlight
            && c'.submitted == c.started + c.handOff + c.queue + [Trim(c.input)]
            && !Inv(c')
  {
    assert c.inFlight == [] && |c.handOff| == 1;
    assert c.started + [Trim(c.input)] + [c.handOff[0]] == c.started + [Trim(c.input), c.handOff[0]];
  }

  /** Two in flight come from such a slip only: between user events the next step is always safe. */
  lemma OverlapOnlyBeforeHandOff(c: Chat, step: Step)
    requires Inv(c)
    ensures |Apply(c, step).inFlight| <= 1
    ensures !Inv(Apply(c, step)) ==> c.handOff != [] && step.Send? && Trim(c.input) != ""
  {
    if c.handOff == [] || step.HandOff? {
      StepKeepsInv(c, step);
    } else if step.Send? && Trim(c.input) == "" {
      assert Sent(c) == c;
    }
  }

  predicate IsMessage(text: string) {
    text != "" && Trim(text) == text
  }

  lemma TrimmedIsMessage(s: string)
    ensures Trim(s) == "" || IsMessage(Trim(s))
  {
  }

  /** Only trimmed, non-empty texts are ever submitted. */
  lemma {:induction false} SubmittedAreMessages(steps: seq<Step>)
    ensures forall text :: text in Run(steps).submitted ==> IsMessage(text)
  {
    if steps != [] {
      SubmittedAreMessages(steps[..|steps| - 1]);
      TrimmedIsMessage(Run(steps[..|steps| - 1]).input);
    }
  }

  /**
   In every run, a delivery that fails outright can be repeated by pressing send:
   the same text is submitted again, behind whatever is queued, and none is lost.
   */
  lemma LostTextIsSentAgain(steps: seq<Step>)
    requires TicksFirst(steps) && Run(steps).inFlight != []
    ensures var c := Run(steps); var text := c.inFlight[0];
            var again := Sent(HandedOff(Settled(c, Lost)));
            && Inv(again) && again.input == ""
            && again.submitted == c.submitted + [text]
            && again.inFlight + again.queue == c.queue + [text]
  {
    OneInFlightInOrder(steps);
    SubmittedAreMessages(steps);
    var c := Run(steps);
    InFlightIsSubmitted(c);
    LostThenSent(c);
  }

  lemma InFlightIsSubmitted(c: Chat)
    requires Inv(c) && c.inFlight != []
    ensures c.inFlight == [c.inFlight[0]] && c.handOff == [] && c.inFlight[0] in c.submitted
  {
    assert c.submitted[|c.settled|] == c.inFlight[0];
  }

  lemma LostThenSent(c: Chat)
    requires Inv(c) && c.inFlight != [] && c.handOff == [] && IsMessage(c.inFlight[0])
    ensures var text := c.inFlight[0];
            var again := Sent(HandedOff(Settled(c, Lost)));
            && Inv(again) && again.input == ""
            && again.submitted == c.submitted + [text]
            && again.inFlight + again.queue == c.queue + [text]
  {
    var settled := Settled(c, Lost);
    var next := HandedOff(settled);
    SettleKeepsInv(c, Lost);
    HandOffKeepsInv(settled);
    SendKeepsInv(next);
    assert next.input == c.inFlight[0] && next.submitted == c.submitted;
    assert next.inFlight + next.queue == c.queue;
    SentJoins(next);
  }

  /** Sending puts the text behind everything in flight or queued. */
  lemma SentJoins(c: Chat)
    requires Inv(c) && c.handOff == [] && IsMessage(c.input)
    ensures Sent(c).inFlight + Sent(c).queue == c.inFlight + c.queue + [c.input]
    ensures Sent(c).input == "" && Sent(c).submitted == c.submitted + [c.input]
  {
  }

  // ----------------------------------------------------------------- draining

  function Measure(c: Chat): (n: nat) {
    |c.queue| + |c.handOff| + |c.inFlight|
  }

  /** Let calls settle, one after the other, with nothing submitted. */
  function Drain(c: Chat, outcomes: seq<Outcome>): (c': Chat)
    decreases |outcomes|
  {
    if outcomes == [] then c else Drain(HandedOff(Settled(HandedOff(c), outcomes[0])), outcomes[1..])
  }

  /** If calls settle the queue drains: pending plus in flight loses one with every settlement. */
  lemma {:induction false} QueueDrains(c: Chat, outcomes: seq<Outcome>)
    requires Inv(c)
    ensures Inv(Drain(c, outcomes)) && Drain(c, outcomes).submitted == c.submitted
    ensures Measure(Drain(c, outcomes)) == if |outcomes| <= Measure(c) then Measure(c) - |outcomes| else 0
    ensures |outcomes| >= Measure(c) ==> Drain(c, outcomes).settled == c.submitted
    decreases |outcomes|
  {
    if outcomes != [] {
      var begun := HandedOff(c);
      HandOffKeepsInv(c);
      var ended := Settled(begun, outcomes[0]);
      SettleKeepsInv(begun, outcomes[0]);
      HandOffKeepsInv(ended);
      QueueDrains(HandedOff(ended), outcomes[1..]);
    }
    if Measure(c) == 0 {
      assert c.settled + [] + [] + [] == c.settled;
    }
  }

  // ------------------------------------------------ what the box holds afterwards

  /** Every text still to be settled, in the order in which that happens. */
  function Texts(c: Chat): (texts: seq<string>)
  {
    c.inFlight + c.handOff + c.queue
  }

  /** The box after deliveries of `texts` ended this way: each lost one overwrites it. */
  function Refilled(draft: string, texts: seq<string>, outcomes: seq<Outcome>): (input: string)
    decreases |outcomes|
  {
    if texts == [] || outcomes == [] then draft
    else Refilled(if outcomes[0].Lost? then texts[0] else draft, texts[1..], outcomes[1..])
  }

  lemma OneSettled(c: Chat, outcome: Outcome)
    requires Inv(c)
    ensures var next := HandedOff(Settled(HandedOff(c), outcome));
            && Inv(next)
            && Texts(next) == (if Texts(c) == [] then [] else Texts(c)[1..])
            && next.input == (if Texts(c) != [] && outcome.Lost? then Texts(c)[0] else c.input)
  {
    var begun := HandedOff(c);
    HandOffKeepsInv(c);
    HandOffKeepsTexts(c);
    SettleKeepsInv(begun, outcome);
    SettleDropsText(begun, outcome);
    HandOffKeepsInv(Settled(begun, outcome));
    HandOffKeepsTexts(Settled(begun, outcome));
  }

  lemma HandOffKeepsTexts(c: Chat)
    requires Inv(c)
    ensures Texts(HandedOff(c)) == Texts(c) && HandedOff(c).input == c.input
  {
    if c.handOff != [] {
      assert c.inFlight == [] && c.handOff == [c.handOff[0]] && c.handOff[1..] == [];
    }
  }

  lemma SettleDropsText(c: Chat, outcome: Outcome)
    requires Inv(c) && c.handOff == []
    ensures Texts(Settled(c, outcome)) == if Texts(c) == [] then [] else Texts(c)[1..]
    ensures Settled(c, outcome).input == if Texts(c) != [] && outcome.Lost? then Texts(c)[0] else c.input
  {
    if c.inFlight != [] {
      assert c.inFlight == [c.inFlight[0]] && c.inFlight[1..] == [];
      assert Texts(c)[1..] == c.queue;
      if c.queue != [] {
        assert c.queue == [c.queue[0]] + c.queue[1..];
      }
    }
  }

  lemma {:induction false} BoxAfterDrain(c: Chat, outcomes: seq<Outcome>)
    requires Inv(c)
    ensures Drain(c, outcomes).input == Refilled(c.input, Texts(c), outcomes)
    decreases |outcomes|
  {
    if outcomes != [] {
      OneSettled(c, outcomes[0]);
      BoxAfterDrain(HandedOff(Settled(HandedOff(c), outcomes[0])), outcomes[1..]);
    }
  }

  ghost predicate NoneLost(texts: seq<string>, outcomes: seq<Outcome>, from: nat) {
    forall j :: from <= j < |outcomes| && j < |texts| ==> !outcomes[j].Lost?
  }

  ghost predicate LastLost(texts: seq<string>, outcomes: seq<Outcome>, i: nat)
    requires i < |outcomes|
  {
    outcomes[i].Lost? && NoneLost(texts, outcomes, i + 1)
  }

  lemma {:induction false} RefilledKeepsDraft(draft: string, texts: seq<string>, outcomes: seq<Outcome>)
    requires NoneLost(texts, outcomes, 0)
    ensures Refilled(draft, texts, outcomes) == draft
    decreases |outcomes|
  {
    if texts != [] && outcomes != [] {
      assert forall j :: 0 <= j < |outcomes[1..]| && j < |texts[1..]| ==> outcomes[1..][j] == outcomes[j + 1];
      RefilledKeepsDraft(draft, texts[1..], outcomes[1..]);
    }
  }

  lemma {:induction false} RefilledHoldsLastLost(draft: string, texts: seq<string>, outcomes: seq<Outcome>, i: nat)
    requires i < |texts| && i < |outcomes| && outcomes[i].Lost? && NoneLost(texts, outcomes, i + 1)
    ensures Refilled(draft, texts, outcomes) == texts[i]
    decreases |outcomes|
  {
    assert forall j :: 0 <= j < |outcomes[1..]| && j < |texts[1..]| ==> outcomes[1..][j] == outcomes[j + 1];
    if i == 0 {
      RefilledKeepsDraft(texts[0], texts[1..], outcomes[1..]);
    } else {
      RefilledHoldsLastLost(if outcomes[0].Lost? then texts[0] else draft, texts[1..], outcomes[1..], i - 1);
    }
  }

  /**
   Whatever was in the box and however deliveries end: it keeps its draft if none
   is lost, and otherwise holds the text of the last lost one and nothing else.
   */
  lemma SurvivingText(c: Chat, outcomes: seq<Outcome>)
    requires Inv(c)
    ensures NoneLost(Texts(c), outcomes, 0) ==> Drain(c, outcomes).input == c.input
    ensures forall i :: 0 <= i < |outcomes| && i < |Texts(c)| && LastLost(Texts(c), outcomes, i) ==>
                          Drain(c, outcomes).input == Texts(c)[i]
  {
    BoxAfterDrain(c, outcomes);
    if NoneLost(Texts(c), outcomes, 0) {
      RefilledKeepsDraft(c.input, Texts(c), outcomes);
    }
    forall i | 0 <= i < |outcomes| && i < |Texts(c)| && LastLost(Texts(c), outcomes, i)
      ensures Drain(c, outcomes).input == Texts(c)[i]
    {
      RefilledHoldsLastLost(c.input, Texts(c), outcomes, i);
    }
  }

  /** A message in flight, another queued, a draft in the box, and both deliveries lost: one text is left. */
  lemma OnlyLastLostSurvives(first: string, second: string, draft: string)
    requires IsMessage(first) && IsMessage(second)
    ensures var c := Run([Type(first), Send, Type(second), Send, Type(draft)]);
            && Inv(c) && Texts(c) == [first, second] && c.input == draft
            && Drain(c, [Lost, Lost]).input == second
  {
    var t1, t2, t3 := [Type(first)], [Type(first), Send], [Type(first), Send, Type(second)];
    var t4 := [Type(first), Send, Type(second), Send];
    var t5 := [Type(first), Send, Type(second), Send, Type(draft)];
    assert t1[..0] == [] && t2[..1] == t1 && t3[..2] == t2 && t4[..3] == t3 && t5[..4] == t4;
    assert Run([]) == EMPTY;
    assert Run(t1) == EMPTY.(input := first);
    assert Run(t2) == EMPTY.(sending := true, inFlight := [first], started := [first], submitted := [first]);
    assert Run(t4) == Run(t2).(queue := [second], submitted := [first, second]);
    assert [first] + [] + [second] == [first, second];
    SurvivingText(Run(t5), [Lost, Lost]);
    assert LastLost([first, second], [Lost, Lost], 1);
  }

  // ---------------------------------------------------------------- the store

  class ChatStore {
    var chatInput: string
    var sending: bool
    var chatQueue: seq<string>
    var pendingUserMsg: string
    var scheduled: seq<string>
    ghost var inFlight: seq<string>
    ghost var submitted: seq<string>
    ghost var started: seq<string>
    ghost var settled: seq<string>

    ghost function State(): (c: Chat)
      reads this
    {
      Chat(chatInput, sending, chatQueue, inFlight, scheduled, submitted, started, settled)
    }

    /** The bubble shown at once is the message in flight. */
    ghost predicate ShowsPending()
      reads this
    {
      pendingUserMsg == if inFlight == [] then "" else inFlight[|inFlight| - 1]
    }

    constructor ()
      ensures State() == EMPTY && ShowsPending()
    {
      chatInput, sending, chatQueue, pendingUserMsg, scheduled := "", false, [], "", [];
      inFlight, submitted, started, settled := [], [], [], [];
    }

    method SendChat()
      modifies this
      ensures State() == Apply(old(State()), Send)
      ensures old(ShowsPending()) ==> ShowsPending()
    {
      var text := Trim(chatInput);
      if text == "" {
        return;
      }
      submitted := submitted + [text];
      if sending {
        chatQueue := chatQueue + [text];
        chatInput := "";
        return;
      }
      chatInput := "";
      DeliverChat(text);
    }

    method DeliverChat(text: string)
      modifies this
      ensures State() == Deliver(old(State()), text) && ShowsPending()
    {
      sending := true;
      pendingUserMsg := text;
      inFlight := inFlight + [text];
      started := started + [text];
    }

    /** The `catch` and `finally` of a delivery of `text`. */
    method OnSettled(text: string, outcome: Outcome)
      requires Inv(State()) && inFlight == [text]
      modifies this
      ensures State() == Apply(old(State()), Settle(outcome)) && ShowsPending()
    {
      if outcome.Lost? {
        chatInput := text;
      }
      inFlight := [];
      settled := settled + [text];
      sending := false;
      pendingUserMsg := "";
      if |chatQueue| > 0 {
        var next := chatQueue[0];
        chatQueue := chatQueue[1..];
        scheduled := scheduled + [next];
      }
    }

    method NextTick()
      modifies this
      ensures State() == Apply(old(State()), HandOff)
      ensures old(ShowsPending()) ==> ShowsPending()
    {
      if scheduled != [] {
        var next := scheduled[0];
        scheduled := scheduled[1..];
        DeliverChat(next);
      }
    }
  }
}
