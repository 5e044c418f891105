/**
 The text the server streams (`_sse_stream_generator`), cut into lines and
 decoded.  Which characters end a line is decided by the HTTP client library and
 a parameter here; a line feed always does, `str.splitlines` knows several more.
 */
module SseFrames {
  import opened Prelude
  import opened Text
  import opened Lines
  import opened SseDecoder

  /** What goes into one frame; `json` is the text `dumps_json` writes for the event. */
  datatype Event = Event(id: string, kind: string, json: string)

  function EventText(e: Event): (text: string)
  {
    ("id: " + e.id) + "\n" + (("event: " + e.kind) + "\n" + (("data: " + e.json) + "\n" + ("" + "\n")))
  }

  function StreamText(events: seq<Event>): (text: string)
  {
    if events == [] then "" else EventText(events[0]) + StreamText(events[1..])
  }

  function Jsons(events: seq<Event>): (r: seq<string>)
    ensures |r| == |events|
    ensures forall i :: 0 <= i < |r| ==> r[i] == events[i].json
  {
    seq(|events|, i requires 0 <= i < |events| => events[i].json)
  }

  // ---------------------------------------------------------------- one frame

  function FrameLines(e: Event): (lines: seq<string>)
  {
    ["id: " + e.id, "event: " + e.kind, "data: " + e.json, ""]
  }

  /** JSON text of an object starts with a brace and has no raw line feed. */
  predicate IsJsonText(json: string) {
    json != "" && !IsSpace(json[0]) && '\n' !in json
  }

  predicate LabelsUnbroken(e: Event, breaks: char -> bool) {
    Unbroken("id: " + e.id, breaks) && Unbroken("event: " + e.kind, breaks) && Unbroken("data: ", breaks)
  }

  lemma FrameTextLines(e: Event, rest: string, breaks: char -> bool)
    requires breaks('\n') && LabelsUnbroken(e, breaks) && Unbroken(e.json, breaks)
    ensures LinesOf(EventText(e) + rest, breaks) == FrameLines(e) + LinesOf(rest, breaks)
  {
    var blank := "" + "\n" + rest;
    var data := ("data: " + e.json) + "\n" + blank;
    var event := ("event: " + e.kind) + "\n" + data;
    var all := ("id: " + e.id) + "\n" + event;
    assert EventText(e) + rest == all;
    LineThenRest("id: " + e.id, event, breaks);
    LineThenRest("event: " + e.kind, data, breaks);
    LineThenRest("data: " + e.json, blank, breaks);
    LineThenRest("", rest, breaks);
    FourLines("id: " + e.id, "event: " + e.kind, "data: " + e.json, "", LinesOf(rest, breaks));
  }

  lemma FourLines<T>(a: T, b: T, c: T, d: T, rest: seq<T>)
    ensures [a] + ([b] + ([c] + ([d] + rest))) == [a, b, c, d] + rest
  {
  }

  lemma LinesOfFrame(e: Event)
    requires IsJsonText(e.json)
    ensures !IsData("id: " + e.id) && !IsData("event: " + e.kind)
    ensures IsData("data: " + e.json) && Value("data: " + e.json) == e.json
  {
    assert ("id: " + e.id)[0] == 'i' && ("event: " + e.kind)[0] == 'e' && DATA[0] == 'd';
    var line := "data: " + e.json;
    assert line[..|DATA|] == DATA && line[|DATA|..] == " " + e.json;
    LStripPadded(" ", e.json);
  }

  lemma OneValueDelivers(a: string, b: string, c: string)
    requires a != "" && b != "" && c != "" && !IsData(a) && !IsData(b) && IsData(c)
    ensures Payloads([a, b, c, ""]) == [Value(c)]
  {
    OpenStep([], a);
    OpenStep([a], b);
    OpenStep([a, b], c);
    OpenStep([a, b, c], "");
    assert [] + [a] == [a] && [a] + [b] == [a, b] && [a, b] + [c] == [a, b, c];
    assert [a, b, c] + [""] == [a, b, c, ""];
    assert Open([a, b, c]) == [Value(c)];
  }

  lemma FrameDelivers(e: Event)
    requires IsJsonText(e.json)
    ensures Payloads(FrameLines(e)) == [e.json]
  {
    LinesOfFrame(e);
    OneValueDelivers("id: " + e.id, "event: " + e.kind, "data: " + e.json);
  }

  // ---------------------------------------------------------------- a stream

  lemma {:induction false} UnbrokenComesBack(events: seq<Event>, breaks: char -> bool)
    requires breaks('\n')
    requires forall e :: e in events ==> IsJsonText(e.json) && LabelsUnbroken(e, breaks) && Unbroken(e.json, breaks)
    ensures Payloads(LinesOf(StreamText(events), breaks)) == Jsons(events)
  {
    if events != [] {
      assert events[0] in events && forall e :: e in events[1..] ==> e in events;
      UnbrokenComesBack(events[1..], breaks);
      OneFrameMore(events[0], StreamText(events[1..]), breaks);
      JsonsFirst(events);
    }
  }

  lemma JsonsFirst(events: seq<Event>)
    requires events != []
    ensures Jsons(events) == [events[0].json] + Jsons(events[1..])
  {
  }

  lemma OneFrameMore(first: Event, rest: string, breaks: char -> bool)
    requires breaks('\n') && IsJsonText(first.json) && LabelsUnbroken(first, breaks) && Unbroken(first.json, breaks)
    ensures Payloads(LinesOf(EventText(first) + rest, breaks)) == [first.json] + Payloads(LinesOf(rest, breaks))
  {
    FrameTextLines(first, rest, breaks);
    PayloadsCompose(FrameLines(first), LinesOf(rest, breaks));
    FrameDelivers(first);
  }

  lemma {:induction false} JoinedCharacters(parts: seq<string>, breaks: char -> bool)
    requires forall i :: 0 <= i < |parts| ==> Unbroken(parts[i], breaks)
    ensures forall c :: c in Join(parts, '\n') ==> c == '\n' || !breaks(c)
  {
    if |parts| > 1 {
      JoinedCharacters(parts[1..], breaks);
      assert Unbroken(parts[0], breaks);
    }
  }

  lemma {:induction false} OpenUnbroken(lines: seq<string>, breaks: char -> bool)
    requires forall i :: 0 <= i < |lines| ==> Unbroken(lines[i], breaks)
    ensures forall i :: 0 <= i < |Open(lines)| ==> Unbroken(Open(lines)[i], breaks)
  {
    if lines != [] {
      var last := lines[|lines| - 1];
      OpenUnbroken(lines[..|lines| - 1], breaks);
      assert IsData(last) ==> forall c :: c in Value(last) ==> c in last;
    }
  }

  /** Whatever is delivered, a line break other than a line feed is never in it. */
  lemma {:induction false} DeliveredCharacters(lines: seq<string>, breaks: char -> bool)
    requires forall i :: 0 <= i < |lines| ==> Unbroken(lines[i], breaks)
    ensures forall i, c :: 0 <= i < |Payloads(lines)| && c in Payloads(lines)[i] ==> c == '\n' || !breaks(c)
  {
    if lines != [] {
      var init := lines[..|lines| - 1];
      DeliveredCharacters(init, breaks);
      OpenUnbroken(init, breaks);
      JoinedCharacters(Open(init), breaks);
    }
  }

  /**
   The streamed events come back exactly and in order if and only if the library
   breaks none of their JSON texts into lines.
   */
  lemma StreamComesBackIff(events: seq<Event>, breaks: char -> bool)
    requires breaks('\n')
    requires forall e :: e in events ==> IsJsonText(e.json) && LabelsUnbroken(e, breaks)
    ensures Payloads(LinesOf(StreamText(events), breaks)) == Jsons(events) <==>
            forall e :: e in events ==> Unbroken(e.json, breaks)
  {
    var lines := LinesOf(StreamText(events), breaks);
    if forall e :: e in events ==> Unbroken(e.json, breaks) {
      UnbrokenComesBack(events, breaks);
    }
    if Payloads(lines) == Jsons(events) {
      DeliveredCharacters(lines, breaks);
      forall e | e in events
        ensures Unbroken(e.json, breaks)
      {
        var i :| 0 <= i < |events| && events[i] == e;
        assert Payloads(lines)[i] == e.json;
      }
    }
  }

  lemma {:induction false} ObjectsOfTexts<J>(texts: seq<string>, objects: seq<J>,
                                             loads: string -> Option<J>, isObject: J -> bool)
    requires |texts| == |objects|
    requires forall i :: 0 <= i < |texts| ==> loads(texts[i]) == Some(objects[i]) && isObject(objects[i])
    ensures Objects(texts, loads, isObject) == objects
  {
    if texts != [] {
      var n := |texts| - 1;
      ObjectsOfTexts(texts[..n], objects[..n], loads, isObject);
      assert objects[..n] + [objects[n]] == objects;
    }
  }

  /** Then so do the objects themselves. */
  lemma StreamedObjectsComeBack<J>(events: seq<Event>, objects: seq<J>, loads: string -> Option<J>,
                                   isObject: J -> bool, breaks: char -> bool)
    requires breaks('\n') && |events| == |objects|
    requires forall e :: e in events ==> IsJsonText(e.json) && LabelsUnbroken(e, breaks) && Unbroken(e.json, breaks)
    requires forall i :: 0 <= i < |events| ==> loads(events[i].json) == Some(objects[i]) && isObject(objects[i])
    ensures Objects(Payloads(LinesOf(StreamText(events), breaks)), loads, isObject) == objects
  {
    StreamComesBackIff(events, breaks);
    ObjectsOfTexts(Jsons(events), objects, loads, isObject);
  }

  /** An event whose JSON the library breaks does not come back. */
  lemma BrokenEventIsLost(e: Event, breaks: char -> bool)
    requires breaks('\n') && IsJsonText(e.json) && LabelsUnbroken(e, breaks) && !Unbroken(e.json, breaks)
    ensures Payloads(LinesOf(StreamText([e]), breaks)) != [e.json]
  {
    assert e in [e] && Jsons([e]) == [e.json];
    StreamComesBackIff([e], breaks);
  }

  /** So with `str.splitlines` one line separator in an event's text is enough to lose the event. */
  lemma LineSeparatorLosesEvent()
    ensures var json := "{\"a\":\"" + "\U{2028}" + "\"}";
            Payloads(LinesOf(StreamText([Event("1", "x", json)]), SPLITLINES)) != [json]
  {
    var head, tail := "{\"a\":\"", "\"}";
    var json := head + "\U{2028}" + tail;
    assert json[|head|] == '\U{2028}' && SPLITLINES('\U{2028}');
    assert head[0] == '{' && json[0] == head[0];
    assert '\n' !in head && '\n' !in tail;
    BrokenEventIsLost(Event("1", "x", json), SPLITLINES);
  }
}
