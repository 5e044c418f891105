/**
 The chat transcript rebuilt from a session's events (`sessionTranscript`).
 The HTML an event renders to is an opaque `text`.
 */
module Transcript {
  import opened Prelude

  datatype ChatEvent = ChatEvent(kind: string, text: string)

  datatype Message = User(text: string) | Agent(text: string)

  /** What an event does to the transcript: it speaks, adds to the agent's turn, or stands alone. */
  datatype Effect = Says(text: string) | Part(text: string) | Notice(text: string)

  /** The cases of the switch over event types. */
  datatype EventKind = Continued | AddsToTurn | WaitsForHuman | Ignored

  function Classify(kind: string): (k: EventKind)
  {
    if kind == "SessionContinued" then Continued
    else if kind in {"ConfirmationRequired", "GoalWaiting"} then WaitsForHuman
    else if kind in {"ActionCompleted", "ActionFailed", "GoalCompleted", "GoalFailed", "GoalCancelled",
                     "RecoveryExhausted"} then AddsToTurn
    else Ignored
  }

  function Effects(events: seq<ChatEvent>): (r: seq<Effect>)
  {
    if events == [] then []
    else Effects(events[..|events| - 1]) + EffectOf(events[|events| - 1])
  }

  function EffectOf(e: ChatEvent): (r: seq<Effect>)
  {
    match Classify(e.kind)
    case Continued => [Says(e.text)]
    case AddsToTurn => [Part(e.text)]
    case WaitsForHuman => [Notice(e.text)]
    case Ignored => []
  }

  lemma {:induction false} EffectsAppend(a: seq<ChatEvent>, b: seq<ChatEvent>)
    ensures Effects(a + b) == Effects(a) + Effects(b)
  {
    if b == [] {
      assert a + b == a;
    } else {
      assert (a + b)[..|a + b| - 1] == a + b[..|b| - 1];
      EffectsAppend(a, b[..|b| - 1]);
      Associative(Effects(a), Effects(b[..|b| - 1]), EffectOf(b[|b| - 1]));
    }
  }

  predicate EndsInTurn(effects: seq<Effect>) {
    effects != [] && effects[|effects| - 1].Part?
  }

  /** One more effect; `open` says whether the last message is a turn still growing. */
  function Added(msgs: seq<Message>, open: bool, x: Effect): (r: seq<Message>)
    requires open ==> msgs != []
    ensures r != [] && (x.Part? ==> r[|r| - 1].Agent?)
  {
    match x
    case Says(t) => msgs + [User(t)]
    case Notice(t) => msgs + [Agent(t)]
    case Part(t) =>
      if open then msgs[..|msgs| - 1] + [Agent(msgs[|msgs| - 1].text + t)] else msgs + [Agent(t)]
  }

  /** Reference definition, with no turn buffer: a part extends the agent message a part ended. */
  function Grouped(effects: seq<Effect>): (msgs: seq<Message>)
    ensures effects != [] ==> msgs != []
    ensures EndsInTurn(effects) ==> msgs[|msgs| - 1].Agent?
  {
    if effects == [] then []
    else
      var init, last := effects[..|effects| - 1], effects[|effects| - 1];
      Added(Grouped(init), EndsInTurn(init), last)
  }

  lemma GroupedStep(effects: seq<Effect>, x: Effect)
    ensures Grouped(effects + [x]) == Added(Grouped(effects), EndsInTurn(effects), x)
    ensures EndsInTurn(effects + [x]) == x.Part?
  {
    assert (effects + [x])[..|effects + [x]| - 1] == effects;
  }

  function Opening(firstMessage: string): (msgs: seq<Message>)
  {
    if firstMessage == "" then [] else [User(firstMessage)]
  }

  function JoinParts(turn: seq<string>): (r: string)
  {
    if turn == [] then "" else JoinParts(turn[..|turn| - 1]) + turn[|turn| - 1]
  }

  function Flushed(turn: seq<string>): (msgs: seq<Message>)
  {
    if turn == [] then [] else [Agent(JoinParts(turn))]
  }

  lemma FlushedStep(msgs: seq<Message>, turn: seq<string>, x: Effect)
    requires msgs + Flushed(turn) != [] || turn == []
    ensures x.Part? ==> msgs + Flushed(turn + [x.text]) == Added(msgs + Flushed(turn), turn != [], x)
    ensures x.Says? ==> msgs + Flushed(turn) + [User(x.text)] == Added(msgs + Flushed(turn), turn != [], x)
    ensures x.Notice? ==> msgs + Flushed(turn) + [Agent(x.text)] == Added(msgs + Flushed(turn), turn != [], x)
  {
    if x.Part? {
      assert (turn + [x.text])[..|turn + [x.text]| - 1] == turn;
      assert Flushed(turn + [x.text]) == [Agent(JoinParts(turn) + x.text)];
      assert turn == [] ==> JoinParts(turn) + x.text == x.text;
    }
  }

  lemma AddedAfter(opening: seq<Message>, effects: seq<Effect>, x: Effect)
    ensures opening + Grouped(effects + [x]) == Added(opening + Grouped(effects), EndsInTurn(effects), x)
  {
    GroupedStep(effects, x);
    if effects == [] {
      Associative(opening, Grouped(effects), Added([], false, x));
    } else {
      AddedBehind(opening, Grouped(effects), EndsInTurn(effects), x);
    }
  }

  lemma EffectsStep(events: seq<ChatEvent>, i: nat)
    requires i < |events|
    ensures Effects(events[..i + 1]) == Effects(events[..i]) + EffectOf(events[i])
  {
    assert events[..i + 1][..|events[..i + 1]| - 1] == events[..i];
  }

  /** What the loop keeps: messages so far, plus the turn in progress. */
  ghost predicate Rebuilt(msgs: seq<Message>, turn: seq<string>, opening: seq<Message>, effects: seq<Effect>) {
    && msgs + Flushed(turn) == opening + Grouped(effects)
    && (turn != [] <==> EndsInTurn(effects))
  }

  lemma RebuiltStep(msgs: seq<Message>, turn: seq<string>, opening: seq<Message>, effects: seq<Effect>, x: Effect)
    requires Rebuilt(msgs, turn, opening, effects)
    ensures x.Part? ==> Rebuilt(msgs, turn + [x.text], opening, effects + [x])
    ensures x.Says? ==> Rebuilt(msgs + Flushed(turn) + [User(x.text)], [], opening, effects + [x])
    ensures x.Notice? ==> Rebuilt(msgs + Flushed(turn) + [Agent(x.text)], [], opening, effects + [x])
  {
    GroupedStep(effects, x);
    FlushedStep(msgs, turn, x);
    AddedAfter(opening, effects, x);
    assert forall m: seq<Message> :: m + Flushed([]) == m;
  }

  /** One round of the loop, whatever the event. */
  lemma EventStep(events: seq<ChatEvent>, i: nat, msgs: seq<Message>, turn: seq<string>, opening: seq<Message>)
    requires i < |events| && Rebuilt(msgs, turn, opening, Effects(events[..i]))
    ensures var e, done := events[i], Effects(events[..i + 1]);
            match Classify(e.kind)
            case Continued => Rebuilt(msgs + Flushed(turn) + [User(e.text)], [], opening, done)
            case AddsToTurn => Rebuilt(msgs, turn + [e.text], opening, done)
            case WaitsForHuman => Rebuilt(msgs + Flushed(turn) + [Agent(e.text)], [], opening, done)
            case Ignored => Rebuilt(msgs, turn, opening, done)
  {
    EffectsStep(events, i);
    var e, done := events[i], Effects(events[..i]);
    match Classify(e.kind)
    case Continued => RebuiltStep(msgs, turn, opening, done, Says(e.text));
    case AddsToTurn => RebuiltStep(msgs, turn, opening, done, Part(e.text));
    case WaitsForHuman => RebuiltStep(msgs, turn, opening, done, Notice(e.text));
    case Ignored => AppendNothing(done, done);
  }

  method SessionTranscript(events: seq<ChatEvent>, firstMessage: string) returns (msgs: seq<Message>)
    ensures msgs == Opening(firstMessage) + Grouped(Effects(events))
  {
    msgs := [];
    if firstMessage != "" {
      msgs := msgs + [User(firstMessage)];
    }
    var turn: seq<string> := [];
    var i := 0;
    assert events[..0] == [];
    while i < |events|
      invariant 0 <= i <= |events|
      invariant Rebuilt(msgs, turn, Opening(firstMessage), Effects(events[..i]))
    {
      var e := events[i];
      EventStep(events, i, msgs, turn, Opening(firstMessage));
      match Classify(e.kind) {
        case Continued =>
          msgs := msgs + Flushed(turn) + [User(e.text)];
          turn := [];
        case AddsToTurn =>
          turn := turn + [e.text];
        case WaitsForHuman =>
          msgs := msgs + Flushed(turn) + [Agent(e.text)];
          turn := [];
        case Ignored =>
      }
      i := i + 1;
    }
    msgs := msgs + Flushed(turn);
    AppendNothing(events, events);
  }

  // --------------------------------------------------------------- properties

  function UserTexts(msgs: seq<Message>): (r: seq<string>)
  {
    if msgs == [] then []
    else
      var last := msgs[|msgs| - 1];
      UserTexts(msgs[..|msgs| - 1]) + (if last.User? then [last.text] else [])
  }

  function AgentText(msgs: seq<Message>): (r: string)
  {
    if msgs == [] then ""
    else
      var last := msgs[|msgs| - 1];
      AgentText(msgs[..|msgs| - 1]) + (if last.Agent? then last.text else "")
  }

  function SaidTexts(effects: seq<Effect>): (r: seq<string>)
  {
    if effects == [] then []
    else
      var last := effects[|effects| - 1];
      SaidTexts(effects[..|effects| - 1]) + (if last.Says? then [last.text] else [])
  }

  function Fragments(effects: seq<Effect>): (r: string)
  {
    if effects == [] then ""
    else
      var last := effects[|effects| - 1];
      Fragments(effects[..|effects| - 1]) + (if last.Says? then "" else last.text)
  }

  lemma {:induction false} TextsAppend(a: seq<Message>, b: seq<Message>)
    ensures UserTexts(a + b) == UserTexts(a) + UserTexts(b)
    ensures AgentText(a + b) == AgentText(a) + AgentText(b)
  {
    if b == [] {
      assert a + b == a;
    } else {
      assert (a + b)[..|a + b| - 1] == a + b[..|b| - 1];
      TextsAppend(a, b[..|b| - 1]);
    }
  }

  lemma OneMessage(m: Message)
    ensures UserTexts([m]) == if m.User? then [m.text] else []
    ensures AgentText([m]) == if m.Agent? then m.text else ""
  {
    assert [m][..0] == [];
  }

  lemma PushedTexts(msgs: seq<Message>, m: Message)
    ensures m.User? ==> UserTexts(msgs + [m]) == UserTexts(msgs) + [m.text] && AgentText(msgs + [m]) == AgentText(msgs)
    ensures m.Agent? ==> UserTexts(msgs + [m]) == UserTexts(msgs) && AgentText(msgs + [m]) == AgentText(msgs) + m.text
  {
    assert (msgs + [m])[..|msgs + [m]| - 1] == msgs;
    assert AgentText(msgs) + "" == AgentText(msgs);
  }

  lemma GrownTexts(head: seq<Message>, text: string, more: string)
    ensures UserTexts(head + [Agent(text + more)]) == UserTexts(head + [Agent(text)])
    ensures AgentText(head + [Agent(text + more)]) == AgentText(head + [Agent(text)]) + more
  {
    PushedTexts(head, Agent(text));
    PushedTexts(head, Agent(text + more));
    assert AgentText(head) + (text + more) == AgentText(head) + text + more;
  }

  lemma ExtendedTexts(msgs: seq<Message>, more: string)
    requires msgs != [] && msgs[|msgs| - 1].Agent?
    ensures var grown := Added(msgs, true, Part(more));
            UserTexts(grown) == UserTexts(msgs) && AgentText(grown) == AgentText(msgs) + more
  {
    var head, last := msgs[..|msgs| - 1], msgs[|msgs| - 1];
    InitAndLast(msgs);
    GrownTexts(head, last.text, more);
    assert Added(msgs, true, Part(more)) == head + [Agent(last.text + more)];
  }

  lemma AddedTexts(msgs: seq<Message>, open: bool, x: Effect)
    requires open ==> msgs != [] && msgs[|msgs| - 1].Agent?
    ensures x.Says? ==> UserTexts(Added(msgs, open, x)) == UserTexts(msgs) + [x.text]
    ensures x.Says? ==> AgentText(Added(msgs, open, x)) == AgentText(msgs)
    ensures !x.Says? ==> UserTexts(Added(msgs, open, x)) == UserTexts(msgs)
    ensures !x.Says? ==> AgentText(Added(msgs, open, x)) == AgentText(msgs) + x.text
  {
    if x.Part? && open {
      ExtendedTexts(msgs, x.text);
    } else if x.Says? {
      assert Added(msgs, open, x) == msgs + [User(x.text)];
      PushedTexts(msgs, User(x.text));
    } else {
      assert Added(msgs, open, x) == msgs + [Agent(x.text)];
      PushedTexts(msgs, Agent(x.text));
    }
  }

  /** Nothing the user said and no fragment of the agent is lost, repeated or reordered. */
  lemma {:induction false} GroupingKeepsTexts(effects: seq<Effect>)
    ensures UserTexts(Grouped(effects)) == SaidTexts(effects)
    ensures AgentText(Grouped(effects)) == Fragments(effects)
  {
    if effects != [] {
      var init, last := effects[..|effects| - 1], effects[|effects| - 1];
      GroupingKeepsTexts(init);
      AddedTexts(Grouped(init), EndsInTurn(init), last);
      assert UserTexts(Grouped(init)) + [] == UserTexts(Grouped(init));
      assert AgentText(Grouped(init)) + "" == AgentText(Grouped(init));
    }
  }

  lemma TranscriptKeepsTexts(events: seq<ChatEvent>, firstMessage: string)
    ensures var msgs := Opening(firstMessage) + Grouped(Effects(events));
            && UserTexts(msgs) == UserTexts(Opening(firstMessage)) + SaidTexts(Effects(events))
            && AgentText(msgs) == Fragments(Effects(events))
  {
    GroupingKeepsTexts(Effects(events));
    TextsAppend(Opening(firstMessage), Grouped(Effects(events)));
    assert Opening(firstMessage) != [] ==> AgentText(Opening(firstMessage)) == "" by {
      OneMessage(User(firstMessage));
    }
  }

  /** Two lists of messages put together, with one agent message welded across the joint. */
  function Welded(left: seq<Message>, right: seq<Message>): (r: seq<Message>)
    requires left != [] && right != []
    ensures |r| == |left| + |right| - 1
  {
    left[..|left| - 1] + [Agent(left[|left| - 1].text + right[0].text)] + right[1..]
  }

  lemma AddedBehind(left: seq<Message>, right: seq<Message>, open: bool, x: Effect)
    requires right != []
    ensures Added(left + right, open, x) == left + Added(right, open, x)
  {
    var init, last := right[..|right| - 1], right[|right| - 1];
    if x.Part? && open {
      assert (left + right)[..|left + right| - 1] == left + init;
      Associative(left, init, [Agent(last.text + x.text)]);
    } else {
      Associative(left, right, Added([], false, x));
    }
  }

  lemma AddedBehindWeld(left: seq<Message>, right: seq<Message>, open: bool, x: Effect)
    requires left != [] && right != [] && right[0].Agent?
    requires open ==> right[|right| - 1].Agent?
    ensures Added(Welded(left, right), open, x) == Welded(left, Added(right, open, x))
  {
    var head := left[..|left| - 1] + [Agent(left[|left| - 1].text + right[0].text)];
    if |right| > 1 {
      AddedBehind(head, right[1..], open, x);
      assert right == [right[0]] + right[1..];
      AddedBehind([right[0]], right[1..], open, x);
    } else {
      AppendNothing(head, right);
      assert right[1..] == [];
      LonelyWeld(left, right[0].text, open, x);
    }
  }

  lemma LonelyWeld(left: seq<Message>, text: string, open: bool, x: Effect)
    requires left != []
    ensures Added(Welded(left, [Agent(text)]), open, x) == Welded(left, Added([Agent(text)], open, x))
  {
    var init, l := left[..|left| - 1], left[|left| - 1].text;
    assert Welded(left, [Agent(text)]) == init + [Agent(l + text)];
    if x.Part? && open {
      assert l + text + x.text == l + (text + x.text);
      assert (init + [Agent(l + text)])[..|init|] == init;
      assert Added([Agent(text)], open, x) == [Agent(text + x.text)];
    }
  }

  /** A clean cut keeps both sides whole. */
  lemma {:induction false} CleanCut(a: seq<Effect>, b: seq<Effect>)
    requires b != [] && !(EndsInTurn(a) && b[0].Part?)
    ensures Grouped(a + b) == Grouped(a) + Grouped(b)
  {
    var init, last := b[..|b| - 1], b[|b| - 1];
    assert b == init + [last];
    GroupedStep(init, last);
    GroupedStep(a + init, last);
    assert a + b == (a + init) + [last];
    if init == [] {
      assert a + init == a;
    } else {
      CleanCut(a, init);
      AddedBehind(Grouped(a), Grouped(init), EndsInTurn(init), last);
    }
  }

  /** A cut through a turn welds the two halves of one agent message. */
  lemma {:induction false} CutThroughTurn(a: seq<Effect>, b: seq<Effect>)
    requires b != [] && EndsInTurn(a) && b[0].Part?
    ensures Grouped(b)[0].Agent?
    ensures Grouped(a + b) == Welded(Grouped(a), Grouped(b))
  {
    var init, last := b[..|b| - 1], b[|b| - 1];
    assert b == init + [last];
    GroupedStep(init, last);
    GroupedStep(a + init, last);
    assert a + b == (a + init) + [last];
    if init == [] {
      assert a + init == a;
    } else {
      CutThroughTurn(a, init);
      AddedBehindWeld(Grouped(a), Grouped(init), EndsInTurn(init), last);
    }
  }

  /** transcript(a ++ b) == transcript(a) ++ transcript(b) exactly when no turn runs across the cut. */
  lemma TranscriptComposesIff(a: seq<ChatEvent>, b: seq<ChatEvent>)
    ensures Grouped(Effects(a + b)) == Grouped(Effects(a)) + Grouped(Effects(b)) <==>
            !(EndsInTurn(Effects(a)) && Effects(b) != [] && Effects(b)[0].Part?)
  {
    EffectsAppend(a, b);
    if Effects(b) == [] {
      assert Effects(a) + [] == Effects(a);
      assert Grouped(Effects(a)) + [] == Grouped(Effects(a));
    } else {
      if EndsInTurn(Effects(a)) && Effects(b)[0].Part? {
        CutThroughTurn(Effects(a), Effects(b));
      } else {
        CleanCut(Effects(a), Effects(b));
      }
    }
  }

  /** In particular when `b` starts at an event that flushes the turn. */
  lemma TranscriptComposesAtFlush(a: seq<ChatEvent>, b: seq<ChatEvent>, firstMessage: string)
    requires b != [] && b[0].kind in {"SessionContinued", "ConfirmationRequired", "GoalWaiting"}
    ensures Opening(firstMessage) + Grouped(Effects(a + b))
         == (Opening(firstMessage) + Grouped(Effects(a))) + Grouped(Effects(b))
  {
    KindsAre(b[0]);
    TranscriptComposesIff(a, b);
    FlushComesFirst(b);
    Associative(Opening(firstMessage), Grouped(Effects(a)), Grouped(Effects(b)));
  }

  lemma FlushComesFirst(b: seq<ChatEvent>)
    requires b != [] && (Classify(b[0].kind).Continued? || Classify(b[0].kind).WaitsForHuman?)
    ensures Effects(b) != [] && !Effects(b)[0].Part?
  {
    assert b == [b[0]] + b[1..];
    EffectsAppend([b[0]], b[1..]);
    assert [b[0]][..0] == [];
    assert Effects([b[0]]) == [] + EffectOf(b[0]);
    assert EffectOf(b[0]) != [] && !EffectOf(b[0])[0].Part?;
  }

  // ------------------------------------------------------- by the types of events

  const SAID: set<string> := {"SessionContinued"}
  const WAITS: set<string> := {"ConfirmationRequired", "GoalWaiting"}
  const TURN: set<string> := {"ActionCompleted", "ActionFailed", "GoalCompleted", "GoalFailed", "GoalCancelled",
                              "RecoveryExhausted"}

  lemma KindsAre(e: ChatEvent)
    ensures Classify(e.kind).Continued? <==> e.kind in SAID
    ensures Classify(e.kind).WaitsForHuman? <==> e.kind in WAITS
    ensures Classify(e.kind).AddsToTurn? <==> e.kind in TURN
  {
    assert "SessionContinued" !in WAITS by { assert |"ConfirmationRequired"| == 20 && |"GoalWaiting"| == 11; }
    assert SAID !! TURN by { assert "SessionContinued"[0] == 'S'; }
    assert "ConfirmationRequired"[0] == 'C' && "GoalWaiting"[4] == 'W' && "GoalCompleted"[4] == 'C';
    assert "GoalFailed"[4] == 'F' && |"GoalCancelled"| == 13;
  }

  /** The texts of the events of some types, in order. */
  function TextsOf(events: seq<ChatEvent>, kinds: set<string>): (texts: seq<string>)
  {
    if events == [] then []
    else
      var last := events[|events| - 1];
      TextsOf(events[..|events| - 1], kinds) + (if last.kind in kinds then [last.text] else [])
  }

  lemma {:induction false} SaidAre(events: seq<ChatEvent>)
    ensures SaidTexts(Effects(events)) == TextsOf(events, SAID)
  {
    if events != [] {
      var init, last := events[..|events| - 1], events[|events| - 1];
      SaidAre(init);
      KindsAre(last);
      SaidOneMore(Effects(init), EffectOf(last));
    }
  }

  lemma SaidOneMore(effects: seq<Effect>, one: seq<Effect>)
    requires |one| <= 1
    ensures SaidTexts(effects + one)
         == SaidTexts(effects) + (if one != [] && one[0].Says? then [one[0].text] else [])
  {
    if one == [] {
      AppendNothing(effects, one);
      AppendNothing(SaidTexts(effects), []);
    } else {
      assert (effects + one)[..|effects + one| - 1] == effects;
    }
  }

  lemma FragmentsOneMore(effects: seq<Effect>, one: seq<Effect>)
    requires |one| <= 1
    ensures Fragments(effects + one)
         == Fragments(effects) + (if one != [] && !one[0].Says? then one[0].text else "")
  {
    if one == [] {
      AppendNothing(effects, one);
      AppendNothing(Fragments(effects), "");
    } else {
      assert (effects + one)[..|effects + one| - 1] == effects;
    }
  }

  lemma {:induction false} FragmentsAre(events: seq<ChatEvent>)
    ensures Fragments(Effects(events)) == JoinParts(TextsOf(events, TURN + WAITS))
  {
    if events != [] {
      var init, last := events[..|events| - 1], events[|events| - 1];
      FragmentsAre(init);
      KindsAre(last);
      FragmentsOneMore(Effects(init), EffectOf(last));
      JoinOneMore(TextsOf(init, TURN + WAITS), last.text);
    }
  }

  lemma JoinOneMore(turn: seq<string>, text: string)
    ensures JoinParts(turn + [text]) == JoinParts(turn) + text
    ensures JoinParts(turn + []) == JoinParts(turn) + ""
  {
    assert (turn + [text])[..|turn + [text]| - 1] == turn;
    AppendNothing(turn, turn);
    AppendNothing(JoinParts(turn), "");
  }

  /** Who says what: the first message and the continuations; the texts of all events of the other listed types. */
  lemma TranscriptByTypes(events: seq<ChatEvent>, firstMessage: string)
    ensures var msgs := Opening(firstMessage) + Grouped(Effects(events));
            && UserTexts(msgs)
               == (if firstMessage == "" then [] else [firstMessage]) + TextsOf(events, {"SessionContinued"})
            && AgentText(msgs)
               == JoinParts(TextsOf(events, {"ActionCompleted", "ActionFailed", "GoalCompleted", "GoalFailed",
                                             "GoalCancelled", "RecoveryExhausted",
                                             "ConfirmationRequired", "GoalWaiting"}))
  {
    TranscriptKeepsTexts(events, firstMessage);
    SaidAre(events);
    FragmentsAre(events);
    OneMessage(User(firstMessage));
    assert UserTexts(Opening(firstMessage)) == if firstMessage == "" then [] else [firstMessage];
    assert TURN + WAITS == {"ActionCompleted", "ActionFailed", "GoalCompleted", "GoalFailed", "GoalCancelled",
                            "RecoveryExhausted", "ConfirmationRequired", "GoalWaiting"};
  }

  /** A continuation or a request for confirmation is a message by itself, whatever is around it. */
  lemma StandsAlone(a: seq<ChatEvent>, e: ChatEvent, b: seq<ChatEvent>)
    requires e.kind in {"SessionContinued", "ConfirmationRequired", "GoalWaiting"}
    ensures Grouped(Effects(a + [e] + b))
         == Grouped(Effects(a)) + [if e.kind == "SessionContinued" then User(e.text) else Agent(e.text)]
          + Grouped(Effects(b))
  {
    KindsAre(e);
    OneEffect(e);
    TranscriptComposesIff(a, [e]);
    EffectsAppend(a, [e]);
    TranscriptComposesIff(a + [e], b);
    assert (Effects(a) + EffectOf(e))[|Effects(a)|] == EffectOf(e)[0];
  }

  lemma OneEffect(e: ChatEvent)
    ensures Effects([e]) == EffectOf(e)
    ensures e.kind in {"SessionContinued"} ==> Grouped(Effects([e])) == [User(e.text)]
    ensures e.kind in WAITS ==> Grouped(Effects([e])) == [Agent(e.text)]
    ensures e.kind in TURN ==> Grouped(Effects([e])) == [Agent(e.text)]
  {
    KindsAre(e);
    assert [e][..0] == [] && [] + EffectOf(e) == EffectOf(e);
    if EffectOf(e) != [] {
      assert EffectOf(e)[..0] == [];
    }
  }

  /** Two events of a turn, one after the other, share a message. */
  lemma TurnSharesMessage(first: ChatEvent, second: ChatEvent)
    requires first.kind in TURN && second.kind in TURN
    ensures Grouped(Effects([first, second])) == [Agent(first.text + second.text)]
  {
    KindsAre(first);
    KindsAre(second);
    OneEffect(first);
    OneEffect(second);
    EffectsAppend([first], [second]);
    assert [first] + [second] == [first, second];
    GroupedStep(Effects([first]), Part(second.text));
    assert [Agent(first.text)][..0] == [];
  }
}
