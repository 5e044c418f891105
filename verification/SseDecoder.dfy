/**
 The client's line-driven server-sent-events decoder (`AgentdClient.stream_events`)
 compared with the event stream interpretation of section 9.2.6 of the WHATWG
 HTML Standard.  JSON parsing is a parameter: `loads` is None where it raises.
 */
module SseDecoder {
  import opened Prelude
  import opened Text

  const DATA := "data:"

  predicate IsData(line: string) {
    DATA <= line
  }

  /** `line[len("data:"):].lstrip()` */
  function Value(line: string): (v: string)
    requires IsData(line)
  {
    LStrip(line[|DATA|..])
  }

  // ------------------------------------------------------------ what it means

  /** The data values of the lines behind the last blank line. */
  function Open(lines: seq<string>): (buffer: seq<string>)
  {
    if lines == [] then []
    else
      var last := lines[|lines| - 1];
      if last == "" then []
      else if IsData(last) then Open(lines[..|lines| - 1]) + [Value(last)]
      else Open(lines[..|lines| - 1])
  }

  /** The payload of every frame: data lines joined, delivered at a blank line, empty frames skipped. */
  function Payloads(lines: seq<string>): (r: seq<string>)
  {
    if lines == [] then []
    else
      var init, last := lines[..|lines| - 1], lines[|lines| - 1];
      Payloads(init) + (if last == "" && Open(init) != [] then [Join(Open(init), '\n')] else [])
  }

  /** Payloads that parse to objects; malformed and non-object ones are dropped. */
  function Objects<J>(payloads: seq<string>, loads: string -> Option<J>, isObject: J -> bool): (r: seq<J>)
  {
    if payloads == [] then []
    else
      var parsed := loads(payloads[|payloads| - 1]);
      Objects(payloads[..|payloads| - 1], loads, isObject)
      + (if parsed.Some? && isObject(parsed.value) then [parsed.value] else [])
  }

  lemma OpenStep(lines: seq<string>, line: string)
    ensures line == "" ==> Open(lines + [line]) == []
    ensures IsData(line) ==> Open(lines + [line]) == Open(lines) + [Value(line)]
    ensures line != "" && !IsData(line) ==> Open(lines + [line]) == Open(lines)
    ensures Payloads(lines + [line])
         == Payloads(lines) + (if line == "" && Open(lines) != [] then [Join(Open(lines), '\n')] else [])
  {
    assert (lines + [line])[..|lines + [line]| - 1] == lines;
  }

  lemma LineStep(lines: seq<string>, i: nat)
    requires i < |lines|
    ensures var line, buffer, payloads := lines[i], Open(lines[..i]), Payloads(lines[..i]);
            && Open(lines[..i + 1])
               == (if line == "" then [] else if IsData(line) then buffer + [Value(line)] else buffer)
            && Payloads(lines[..i + 1])
               == (if line == "" && buffer != [] then payloads + [Join(buffer, '\n')] else payloads)
  {
    OpenStep(lines[..i], lines[i]);
    assert lines[..i + 1] == lines[..i] + [lines[i]];
    AppendNothing(Payloads(lines[..i]), Payloads(lines[..i]));
  }

  lemma ObjectsStep<J>(payloads: seq<string>, p: string, loads: string -> Option<J>, isObject: J -> bool)
    ensures Objects(payloads + [p], loads, isObject)
         == Objects(payloads, loads, isObject)
          + (if loads(p).Some? && isObject(loads(p).value) then [loads(p).value] else [])
  {
    assert (payloads + [p])[..|payloads + [p]| - 1] == payloads;
  }

  method StreamEvents<J>(lines: seq<string>, loads: string -> Option<J>, isObject: J -> bool)
    returns (bodies: seq<J>)
    ensures bodies == Objects(Payloads(lines), loads, isObject)
  {
    bodies := [];
    var buffer: seq<string> := [];
    ghost var payloads: seq<string> := [];
    var i := 0;
    while i < |lines|
      invariant 0 <= i <= |lines|
      invariant buffer == Open(lines[..i])
      invariant payloads == Payloads(lines[..i])
      invariant bodies == Objects(payloads, loads, isObject)
    {
      var line := lines[i];
      LineStep(lines, i);
      i := i + 1;
      if IsData(line) {
        buffer := buffer + [Value(line)];
        continue;
      }
      if line == "" && buffer != [] {
        var text := Join(buffer, '\n');
        buffer := [];
        ObjectsStep(payloads, text, loads, isObject);
        payloads := payloads + [text];
        var parsed := loads(text);
        if parsed.None? {
          continue;
        }
        if isObject(parsed.value) {
          bodies := bodies + [parsed.value];
        }
      }
    }
    assert lines[..|lines|] == lines;
  }

  /** The payloads that come out: those that parse, to an object. */
  function Kept<J>(payloads: seq<string>, loads: string -> Option<J>, isObject: J -> bool): (r: seq<string>)
  {
    if payloads == [] then []
    else
      var last := payloads[|payloads| - 1];
      Kept(payloads[..|payloads| - 1], loads, isObject)
      + (if loads(last).Some? && isObject(loads(last).value) then [last] else [])
  }

  /** What comes out, one for one: the objects of those payloads. */
  lemma {:induction false} ObjectsOfKept<J>(payloads: seq<string>, loads: string -> Option<J>, isObject: J -> bool)
    ensures var kept, r := Kept(payloads, loads, isObject), Objects(payloads, loads, isObject);
            && |kept| == |r|
            && forall k :: 0 <= k < |r| ==> loads(kept[k]) == Some(r[k]) && isObject(r[k])
  {
    if payloads != [] {
      ObjectsOfKept(payloads[..|payloads| - 1], loads, isObject);
    }
  }

  /** Those payloads are picked in order, and no other one parses to an object. */
  lemma {:induction false} KeptAre<J>(payloads: seq<string>, loads: string -> Option<J>, isObject: J -> bool)
    returns (at: seq<nat>)
    ensures Picks(payloads, Kept(payloads, loads, isObject), at)
    ensures forall i :: 0 <= i < |payloads| ==>
              (i in at <==> loads(payloads[i]).Some? && isObject(loads(payloads[i]).value))
  {
    at := [];
    if payloads != [] {
      var init, last := payloads[..|payloads| - 1], payloads[|payloads| - 1];
      InitAndLast(payloads);
      at := KeptAre(init, loads, isObject);
      PicksOneMore(init, last, Kept(init, loads, isObject), at);
      if loads(last).Some? && isObject(loads(last).value) {
        at := at + [|init|];
      } else {
        AppendNothing(Kept(init, loads, isObject), []);
      }
    }
  }

  // -------------------------------------------------------------- composition

  lemma {:induction false} ObjectsAppend<J>(a: seq<string>, b: seq<string>,
                                            loads: string -> Option<J>, isObject: J -> bool)
    ensures Objects(a + b, loads, isObject) == Objects(a, loads, isObject) + Objects(b, loads, isObject)
  {
    if b == [] {
      AppendNothing(a, b);
      AppendNothing(Objects(a, loads, isObject), []);
    } else {
      var init, last := b[..|b| - 1], b[|b| - 1];
      InitAndLast(b);
      ObjectsAppend(a, init, loads, isObject);
      ObjectsStep(a + init, last, loads, isObject);
      ObjectsStep(init, last, loads, isObject);
      Associative(a, init, [last]);
      Associative(Objects(a, loads, isObject), Objects(init, loads, isObject),
                  if loads(last).Some? && isObject(loads(last).value) then [loads(last).value] else []);
    }
  }

  lemma PayloadsBehind(a: seq<string>, init: seq<string>, all: seq<string>, last: string, open: seq<string>)
    requires all == init + (if last == "" && open != [] then [Join(open, '\n')] else [])
    ensures a + init + (if last == "" && open != [] then [Join(open, '\n')] else []) == a + all
  {
  }

  /** Behind a blank line the decoder starts afresh. */
  lemma {:induction false} PayloadsCompose(a: seq<string>, b: seq<string>)
    requires a == [] || a[|a| - 1] == ""
    ensures Open(a + b) == Open(b)
    ensures Payloads(a + b) == Payloads(a) + Payloads(b)
  {
    if b == [] {
      assert a + b == a;
    } else {
      var init, last := b[..|b| - 1], b[|b| - 1];
      PayloadsCompose(a, init);
      OpenStep(a + init, last);
      OpenStep(init, last);
      Associative(a, init, [last]);
      assert b == init + [last];
      PayloadsBehind(Payloads(a), Payloads(init), Payloads(b), last, Open(init));
    }
  }

  /** Decoding is compositional at blank lines. */
  lemma DecodingComposes<J>(a: seq<string>, b: seq<string>, loads: string -> Option<J>, isObject: J -> bool)
    requires a == [] || a[|a| - 1] == ""
    ensures Objects(Payloads(a + b), loads, isObject)
         == Objects(Payloads(a), loads, isObject) + Objects(Payloads(b), loads, isObject)
  {
    PayloadsCompose(a, b);
    ObjectsAppend(Payloads(a), Payloads(b), loads, isObject);
  }

  lemma UnfinishedLine(lines: seq<string>, line: string)
    requires line != ""
    ensures Payloads(lines + [line]) == Payloads(lines)
  {
    OpenStep(lines, line);
    AppendNothing(Payloads(lines), Payloads(lines));
  }

  /** A final frame without its blank line is discarded. */
  lemma {:induction false} UnterminatedFrameDiscarded(a: seq<string>, b: seq<string>)
    requires forall k :: 0 <= k < |b| ==> b[k] != ""
    ensures Payloads(a + b) == Payloads(a)
  {
    if b == [] {
      assert a + b == a;
    } else {
      var init, last := b[..|b| - 1], b[|b| - 1];
      UnterminatedFrameDiscarded(a, init);
      UnfinishedLine(a + init, last);
      Associative(a, init, [last]);
      assert b == init + [last];
    }
  }

  // --------------------------------------------------------------- round trip

  /** A line of a frame as a server may write it: padded payload, or an id/event/comment line. */
  datatype Item = Payload(pad: string, text: string) | Noise(line: string)

  predicate WellFormed(item: Item) {
    match item
    case Payload(pad, text) => IsBlank(pad) && (text == "" || !IsSpace(text[0]))
    case Noise(line) => line != "" && !IsData(line)
  }

  function Rendered(item: Item): (line: string)
  {
    match item
    case Payload(pad, text) => DATA + (pad + text)
    case Noise(line) => line
  }

  function RenderAll(frame: seq<Item>): (lines: seq<string>)
  {
    if frame == [] then [] else RenderAll(frame[..|frame| - 1]) + [Rendered(frame[|frame| - 1])]
  }

  function Texts(frame: seq<Item>): (r: seq<string>)
  {
    if frame == [] then []
    else
      var last := frame[|frame| - 1];
      Texts(frame[..|frame| - 1]) + (if last.Payload? then [last.text] else [])
  }

  /** Frames as lines, each closed by a blank line. */
  function Encoded(frames: seq<seq<Item>>): (lines: seq<string>)
    ensures lines == [] || lines[|lines| - 1] == ""
  {
    if frames == [] then [] else Encoded(frames[..|frames| - 1]) + (RenderAll(frames[|frames| - 1]) + [""])
  }

  function FrameTexts(frames: seq<seq<Item>>): (r: seq<string>)
  {
    if frames == [] then []
    else
      var texts := Texts(frames[|frames| - 1]);
      FrameTexts(frames[..|frames| - 1]) + (if texts != [] then [Join(texts, '\n')] else [])
  }

  lemma RenderedLine(item: Item)
    requires WellFormed(item)
    ensures Rendered(item) != ""
    ensures item.Payload? ==> IsData(Rendered(item)) && Value(Rendered(item)) == item.text
    ensures item.Noise? ==> !IsData(Rendered(item))
  {
    if item.Payload? {
      assert Rendered(item)[|DATA|..] == item.pad + item.text;
      LStripPadded(item.pad, item.text);
    }
  }

  lemma {:induction false} FrameDecodes(frame: seq<Item>)
    requires forall item :: item in frame ==> WellFormed(item)
    ensures Open(RenderAll(frame)) == Texts(frame)
    ensures Payloads(RenderAll(frame)) == []
  {
    if frame != [] {
      var init, last := frame[..|frame| - 1], frame[|frame| - 1];
      assert last in frame && forall item :: item in init ==> item in frame;
      FrameDecodes(init);
      RenderedLine(last);
      OpenStep(RenderAll(init), Rendered(last));
      assert Texts(init) + [] == Texts(init);
    }
  }

  /** The decoder inverts any framing into padded `data:` lines with other lines in between. */
  lemma {:induction false} DecoderInvertsFraming(frames: seq<seq<Item>>)
    requires forall frame, item :: frame in frames && item in frame ==> WellFormed(item)
    ensures Payloads(Encoded(frames)) == FrameTexts(frames)
  {
    if frames != [] {
      var init, last := frames[..|frames| - 1], frames[|frames| - 1];
      assert last in frames && forall frame :: frame in init ==> frame in frames;
      DecoderInvertsFraming(init);
      FrameDecodes(last);
      OpenStep(RenderAll(last), "");
      PayloadsCompose(Encoded(init), RenderAll(last) + [""]);
    }
  }

  /** Objects framed one per frame come back exactly, in order. */
  lemma {:induction false} ObjectsComeBack<J>(frames: seq<seq<Item>>, objects: seq<J>,
                                              loads: string -> Option<J>, isObject: J -> bool)
    requires forall frame, item :: frame in frames && item in frame ==> WellFormed(item)
    requires |frames| == |objects|
    requires forall i :: 0 <= i < |frames| ==> Texts(frames[i]) != [] && isObject(objects[i])
    requires forall i :: 0 <= i < |frames| ==> loads(Join(Texts(frames[i]), '\n')) == Some(objects[i])
    ensures Objects(Payloads(Encoded(frames)), loads, isObject) == objects
  {
    DecoderInvertsFraming(frames);
    FramedObjects(frames, objects, loads, isObject);
  }

  lemma {:induction false} FramedObjects<J>(frames: seq<seq<Item>>, objects: seq<J>,
                                            loads: string -> Option<J>, isObject: J -> bool)
    requires |frames| == |objects|
    requires forall i :: 0 <= i < |frames| ==> Texts(frames[i]) != [] && isObject(objects[i])
    requires forall i :: 0 <= i < |frames| ==> loads(Join(Texts(frames[i]), '\n')) == Some(objects[i])
    ensures Objects(FrameTexts(frames), loads, isObject) == objects
  {
    if frames != [] {
      var n := |frames| - 1;
      FramedObjects(frames[..n], objects[..n], loads, isObject);
      ObjectsStep(FrameTexts(frames[..n]), Join(Texts(frames[n]), '\n'), loads, isObject);
      assert objects[..n] + [objects[n]] == objects;
    }
  }

  // ------------------------------------------------------------- the standard

  /** "If value starts with a U+0020 SPACE character, remove it from value." */
  function OneSpaceRemoved(value: string): (r: string)
  {
    if value != "" && value[0] == ' ' then value[1..] else value
  }

  /** The value a line adds to the data buffer by the standard; None for every other line. */
  function StandardData(line: string): (r: Option<string>)
  {
    if IsData(line) then Some(OneSpaceRemoved(line[|DATA|..]))
    else if line == "data" then Some("")
    else None
  }

  /** The standard's data buffer: every value followed by a line feed, reset at a blank line. */
  function StandardBuffer(lines: seq<string>): (buffer: string)
  {
    if lines == [] then ""
    else
      var init, last := lines[..|lines| - 1], lines[|lines| - 1];
      if last == "" then ""
      else match StandardData(last)
           case Some(value) => StandardBuffer(init) + value + "\n"
           case None => StandardBuffer(init)
  }

  /** The data of every event the standard dispatches: a non-empty buffer less its last line feed. */
  function StandardEvents(lines: seq<string>): (r: seq<string>)
  {
    if lines == [] then []
    else
      var init, last := lines[..|lines| - 1], lines[|lines| - 1];
      var buffer := StandardBuffer(init);
      StandardEvents(init) + (if last == "" && buffer != "" then [buffer[..|buffer| - 1]] else [])
  }

  /** The line means the same to both: no bare `data`, no white space beyond the one space removed. */
  predicate ReadAlike(line: string) {
    && line != "data"
    && (IsData(line) ==> LStrip(line[|DATA|..]) == OneSpaceRemoved(line[|DATA|..]))
  }

  function Terminated(values: seq<string>): (r: string)
    ensures (r == "") == (values == [])
  {
    if values == [] then "" else Terminated(values[..|values| - 1]) + values[|values| - 1] + "\n"
  }

  lemma {:induction false} TerminatedIsJoined(values: seq<string>)
    requires values != []
    ensures Terminated(values) == Join(values, '\n') + "\n"
  {
    var init, last := values[..|values| - 1], values[|values| - 1];
    if init == [] {
      assert values == [last];
      assert Terminated(init) + last + "\n" == last + "\n";
    } else {
      TerminatedIsJoined(init);
      JoinLast(init, last, '\n');
      assert values == init + [last];
      assert Join(init, '\n') + "\n" + last + "\n" == (Join(init, '\n') + "\n" + last) + "\n";
    }
  }

  lemma {:induction false} JoinLast(init: seq<string>, last: string, separator: char)
    requires init != []
    ensures Join(init + [last], separator) == Join(init, separator) + [separator] + last
  {
    assert (init + [last])[1..] == init[1..] + [last];
    if |init| > 1 {
      JoinLast(init[1..], last, separator);
      var tail := Join(init[1..], separator);
      assert init[0] + [separator] + (tail + [separator] + last) == (init[0] + [separator] + tail) + [separator] + last;
    }
  }

  lemma StandardStep(lines: seq<string>, line: string)
    ensures StandardBuffer(lines + [line])
         == (if line == "" then ""
             else if StandardData(line).Some? then StandardBuffer(lines) + StandardData(line).value + "\n"
             else StandardBuffer(lines))
    ensures StandardEvents(lines + [line])
         == StandardEvents(lines)
          + (if line == "" && StandardBuffer(lines) != "" then [StandardBuffer(lines)[..|StandardBuffer(lines)| - 1]]
             else [])
  {
    assert (lines + [line])[..|lines + [line]| - 1] == lines;
  }

  /** The values the standard has buffered behind the last blank line. */
  function StandardOpen(lines: seq<string>): (values: seq<string>)
  {
    if lines == [] then []
    else
      var init, last := lines[..|lines| - 1], lines[|lines| - 1];
      if last == "" then []
      else if StandardData(last).Some? then StandardOpen(init) + [StandardData(last).value]
      else StandardOpen(init)
  }

  lemma StandardOpenStep(lines: seq<string>, line: string)
    ensures StandardOpen(lines + [line])
         == if line == "" then []
            else if StandardData(line).Some? then StandardOpen(lines) + [StandardData(line).value]
            else StandardOpen(lines)
  {
    assert (lines + [line])[..|lines + [line]| - 1] == lines;
  }

  lemma TerminatedStep(values: seq<string>, value: string)
    ensures Terminated(values + [value]) == Terminated(values) + value + "\n"
  {
    assert (values + [value])[..|values + [value]| - 1] == values;
  }

  /** The standard's buffer is its values, each followed by a line feed. */
  lemma {:induction false} BufferIsTerminated(lines: seq<string>)
    ensures StandardBuffer(lines) == Terminated(StandardOpen(lines))
  {
    if lines != [] {
      var init, last := lines[..|lines| - 1], lines[|lines| - 1];
      BufferIsTerminated(init);
      StandardStep(init, last);
      StandardOpenStep(init, last);
      assert lines == init + [last];
      if StandardData(last).Some? {
        TerminatedStep(StandardOpen(init), StandardData(last).value);
      }
    }
  }

  /** So an event's data is its values joined. */
  lemma StandardEventsStep(lines: seq<string>, line: string)
    ensures StandardEvents(lines + [line])
         == StandardEvents(lines)
          + (if line == "" && StandardOpen(lines) != [] then [Join(StandardOpen(lines), '\n')] else [])
  {
    StandardStep(lines, line);
    BufferIsTerminated(lines);
    if StandardOpen(lines) != [] {
      TerminatedIsJoined(StandardOpen(lines));
      var joined := Join(StandardOpen(lines), '\n');
      assert (joined + "\n")[..|joined + "\n"| - 1] == joined;
    }
  }

  /** No line holds a line feed; that is what makes it a line. */
  predicate AreLines(lines: seq<string>) {
    forall i :: 0 <= i < |lines| ==> '\n' !in lines[i]
  }

  predicate NoLineFeed(values: seq<string>) {
    forall i :: 0 <= i < |values| ==> '\n' !in values[i]
  }

  lemma ValuesOfLine(line: string)
    requires '\n' !in line
    ensures IsData(line) ==> '\n' !in Value(line)
    ensures StandardData(line).Some? ==> '\n' !in StandardData(line).value
  {
    if IsData(line) {
      assert forall c :: c in Value(line) ==> c in line[|DATA|..];
    }
  }

  lemma {:induction false} OpenHasNoLineFeed(lines: seq<string>)
    requires AreLines(lines)
    ensures NoLineFeed(Open(lines)) && NoLineFeed(StandardOpen(lines))
  {
    if lines != [] {
      OpenHasNoLineFeed(lines[..|lines| - 1]);
      ValuesOfLine(lines[|lines| - 1]);
    }
  }

  lemma JoinIsInjective(a: seq<string>, b: seq<string>)
    requires a != [] && b != [] && NoLineFeed(a) && NoLineFeed(b)
    ensures Join(a, '\n') == Join(b, '\n') <==> a == b
  {
    SplitJoin(a, '\n');
    SplitJoin(b, '\n');
  }

  /** How many lines belong to frames that a blank line has ended. */
  function Ended(lines: seq<string>): (n: nat)
    ensures n <= |lines|
    ensures forall i :: n <= i < |lines| ==> lines[i] != ""
    ensures n > 0 ==> lines[n - 1] == ""
  {
    if lines == [] then 0
    else if lines[|lines| - 1] == "" then |lines|
    else Ended(lines[..|lines| - 1])
  }

  ghost predicate AllReadAlike(lines: seq<string>, from: nat, to: nat)
    requires from <= to <= |lines|
  {
    forall i :: from <= i < to ==> ReadAlike(lines[i])
  }

  /** One line more in the open frame. */
  lemma OneMoreValue(mine: seq<string>, standard: seq<string>, line: string)
    requires line != "" && |mine| <= |standard|
    ensures var mine' := if IsData(line) then mine + [Value(line)] else mine;
            var standard' := if StandardData(line).Some? then standard + [StandardData(line).value] else standard;
            && |mine'| <= |standard'|
            && (mine' == standard' <==> mine == standard && ReadAlike(line))
  {
    if IsData(line) {
      SameEnds(mine, standard, Value(line), OneSpaceRemoved(line[|DATA|..]));
      assert line != "data";
    }
  }

  lemma SameEnds<T>(a: seq<T>, b: seq<T>, x: T, y: T)
    ensures a + [x] == b + [y] <==> a == b && x == y
  {
    if a + [x] == b + [y] {
      assert |a| == |b| && a == (a + [x])[..|a|] && b == (b + [y])[..|b|];
      assert (a + [x])[|a|] == x && (b + [y])[|b|] == y;
    }
  }

  /** The open frame holds the same values for both exactly when its lines read alike. */
  lemma {:induction false} OpenAgreesIff(lines: seq<string>)
    ensures |Open(lines)| <= |StandardOpen(lines)|
    ensures Open(lines) == StandardOpen(lines) <==> AllReadAlike(lines, Ended(lines), |lines|)
  {
    if lines != [] {
      var init, last := lines[..|lines| - 1], lines[|lines| - 1];
      OpenAgreesIff(init);
      if last != "" {
        OneMoreValue(Open(init), StandardOpen(init), last);
        assert forall i :: 0 <= i < |init| ==> init[i] == lines[i];
      }
    }
  }

  /** One line more in the stream: what each side delivers. */
  lemma OneMoreFrame(mine: seq<string>, standard: seq<string>, open: seq<string>, standardOpen: seq<string>)
    requires |mine| <= |standard| && |open| <= |standardOpen|
    requires NoLineFeed(open) && NoLineFeed(standardOpen)
    ensures var mine' := mine + (if open != [] then [Join(open, '\n')] else []);
            var standard' := standard + (if standardOpen != [] then [Join(standardOpen, '\n')] else []);
            && |mine'| <= |standard'|
            && (mine' == standard' <==> mine == standard && open == standardOpen)
  {
    if open != [] {
      JoinIsInjective(open, standardOpen);
      SameEnds(mine, standard, Join(open, '\n'), Join(standardOpen, '\n'));
    } else if standardOpen == [] {
      AppendNothing(mine, mine);
      AppendNothing(standard, standard);
    }
  }

  /**
   On any stream of lines the decoder delivers exactly the events of the standard
   if and only if every line of every ended frame reads alike.
   */
  lemma {:induction false} DecoderMeetsStandardIff(lines: seq<string>)
    requires AreLines(lines)
    ensures |Payloads(lines)| <= |StandardEvents(lines)|
    ensures Payloads(lines) == StandardEvents(lines) <==> AllReadAlike(lines, 0, Ended(lines))
  {
    if lines != [] {
      var init, last := lines[..|lines| - 1], lines[|lines| - 1];
      DecoderMeetsStandardIff(init);
      assert lines == init + [last];
      OpenStep(init, last);
      StandardEventsStep(init, last);
      if last == "" {
        OpenAgreesIff(init);
        OpenHasNoLineFeed(init);
        OneMoreFrame(Payloads(init), StandardEvents(init), Open(init), StandardOpen(init));
        AllLinesSplit(init, last);
      } else {
        AppendNothing(Payloads(init), Payloads(init));
        AppendNothing(StandardEvents(init), StandardEvents(init));
        SameStretch(init, lines);
      }
    }
  }

  lemma AllLinesSplit(init: seq<string>, last: string)
    requires last == ""
    ensures AllReadAlike(init + [last], 0, |init| + 1) <==>
            AllReadAlike(init, 0, Ended(init)) && AllReadAlike(init, Ended(init), |init|)
  {
    var lines := init + [last];
    assert forall i :: 0 <= i < |init| ==> lines[i] == init[i];
    assert lines[|init|] == "" && ReadAlike("");
  }

  lemma SameStretch(init: seq<string>, lines: seq<string>)
    requires lines != [] && init == lines[..|lines| - 1]
    ensures AllReadAlike(init, 0, Ended(init)) <==> AllReadAlike(lines, 0, Ended(init))
  {
    assert forall i :: 0 <= i < |init| ==> lines[i] == init[i];
  }

  /** A bare `data` line: an empty event by the standard, nothing for the decoder. */
  lemma BareDataIsMissed()
    ensures Payloads(["data", ""]) == [] && StandardEvents(["data", ""]) == [""]
  {
    OpenStep([], "data");
    OpenStep(["data"], "");
    StandardOpenStep([], "data");
    StandardEventsStep([], "data");
    StandardEventsStep(["data"], "");
    assert [] + ["data"] == ["data"] && ["data"] + [""] == ["data", ""];
    assert !IsData("data") && StandardData("data") == Some("");
    assert [] + [""] == [""];
  }

  /** A data line as one frame. */
  lemma OneDataLine(line: string)
    requires IsData(line)
    ensures Payloads([line, ""]) == [Value(line)]
    ensures StandardEvents([line, ""]) == [OneSpaceRemoved(line[|DATA|..])]
  {
    OpenStep([], line);
    OpenStep([line], "");
    StandardOpenStep([], line);
    StandardEventsStep([], line);
    StandardEventsStep([line], "");
    assert [] + [line] == [line] && [line] + [""] == [line, ""];
    assert Open([line]) == [Value(line)];
    assert StandardOpen([line]) == [OneSpaceRemoved(line[|DATA|..])];
  }

  /** Two spaces: the standard keeps the second, the decoder strips both. */
  lemma SecondSpaceIsStripped()
    ensures Payloads(["data:  x", ""]) == ["x"] && StandardEvents(["data:  x", ""]) == [" x"]
  {
    var line := "data:  x";
    assert line[..|DATA|] == DATA && line[|DATA|..] == "  " + "x";
    LStripPadded("  ", "x");
    OneDataLine(line);
    assert OneSpaceRemoved("  " + "x") == " x";
  }
}
