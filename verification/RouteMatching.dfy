/** First-match routing over `{param}` path templates (`match_domain_route`). */
module RouteMatching {
  import opened Prelude
  import opened Text

  datatype Definition = Definition(name: string, template: string, methods: seq<string>)

  function Segments(path: string): (r: seq<string>)
    ensures r != []
  {
    Split(Strip(path, '/'), '/')
  }

  predicate IsParameter(segment: string) {
    segment != "" && segment[0] == '{'
  }

  predicate SegmentMatches(segment: string, pathSegment: string) {
    IsParameter(segment) || segment == pathSegment
  }

  predicate Matches(template: string, path: string) {
    var want, got := Segments(template), Segments(path);
    |want| == |got| && forall k :: 0 <= k < |want| ==> SegmentMatches(want[k], got[k])
  }

  /** ASCII upper-casing of a method name. */
  function Upper(s: string): (r: string)
    ensures |r| == |s|
    ensures forall k :: 0 <= k < |s| ==>
              r[k] as int == (if 97 <= s[k] as int <= 122 then s[k] as int - 32 else s[k] as int)
  {
    if s == "" then ""
    else (if 'a' <= s[0] <= 'z' then [s[0] - 'a' + 'A'] else [s[0]]) + Upper(s[1..])
  }

  /** `all(...)` over the zipped segments. */
  method AllMatch(want: seq<string>, got: seq<string>) returns (all: bool)
    requires |want| == |got|
    ensures all <==> forall k :: 0 <= k < |want| ==> SegmentMatches(want[k], got[k])
  {
    var k := 0;
    while k < |want|
      invariant 0 <= k <= |want|
      invariant forall n :: 0 <= n < k ==> SegmentMatches(want[n], got[n])
    {
      if !SegmentMatches(want[k], got[k]) {
        return false;
      }
      k := k + 1;
    }
    return true;
  }

  ghost predicate IsFirstMatch(definitions: seq<Definition>, i: nat, path: string) {
    && i < |definitions|
    && Matches(definitions[i].template, path)
    && forall j :: 0 <= j < i ==> !Matches(definitions[j].template, path)
  }

  /** The first definition in order whose template matches, with whether it allows the method. */
  method MatchDomainRoute(definitions: seq<Definition>, verb: string, path: string)
    returns (r: Option<(Definition, bool)>, ghost index: nat)
    ensures r.None? <==> forall i :: 0 <= i < |definitions| ==> !Matches(definitions[i].template, path)
    ensures r.Some? ==> IsFirstMatch(definitions, index, path)
    ensures r.Some? ==> r.value == (definitions[index], Upper(verb) in definitions[index].methods)
  {
    index := 0;
    var i := 0;
    while i < |definitions|
      invariant 0 <= i <= |definitions|
      invariant forall j :: 0 <= j < i ==> !Matches(definitions[j].template, path)
    {
      var definition := definitions[i];
      var want, got := Segments(definition.template), Segments(path);
      if |want| == |got| {
        var all := AllMatch(want, got);
        if all {
          return Some((definition, Upper(verb) in definition.methods)), i;
        }
      }
      i := i + 1;
    }
    r := None;
  }

  // ------------------------------------------------------- filling a template

  datatype Part = Literal(text: string) | Parameter(name: string)

  /** A segment the router can tell apart: non-empty, without slashes, not posing as a parameter. */
  predicate WellFormedPart(part: Part) {
    match part
    case Literal(text) => text != "" && '/' !in text && text[0] != '{'
    case Parameter(name) => '/' !in name
  }

  function Shown(part: Part): (r: string)
  {
    match part
    case Literal(text) => text
    case Parameter(name) => "{" + name + "}"
  }

  function Filled(part: Part, value: string): (r: string)
  {
    match part
    case Literal(text) => text
    case Parameter(_) => value
  }

  function TemplateSegments(parts: seq<Part>): (r: seq<string>)
    ensures |r| == |parts|
    ensures forall k :: 0 <= k < |parts| ==> r[k] == Shown(parts[k])
  {
    seq(|parts|, k requires 0 <= k < |parts| => Shown(parts[k]))
  }

  function FilledSegments(parts: seq<Part>, values: seq<string>): (r: seq<string>)
    requires |values| == |parts|
    ensures |r| == |parts|
    ensures forall k :: 0 <= k < |parts| ==> r[k] == Filled(parts[k], values[k])
  {
    seq(|parts|, k requires 0 <= k < |parts| => Filled(parts[k], values[k]))
  }

  function PathOf(segments: seq<string>): (r: string)
  {
    "/" + Join(segments, '/')
  }

  lemma {:induction false} JoinEnds(segments: seq<string>, c: char)
    requires segments != []
    requires forall s :: s in segments ==> s != "" && c !in s
    ensures Join(segments, c) != ""
    ensures Join(segments, c)[0] != c && Join(segments, c)[|Join(segments, c)| - 1] != c
  {
    assert segments[0] in segments;
    if |segments| > 1 {
      assert forall s :: s in segments[1..] ==> s in segments;
      JoinEnds(segments[1..], c);
    }
  }

  /** A path of non-empty slash-free segments survives `strip("/")` and `split("/")`. */
  lemma SegmentsOfPath(segments: seq<string>)
    requires segments != []
    requires forall s :: s in segments ==> s != "" && '/' !in s
    ensures Segments(PathOf(segments)) == segments
  {
    JoinEnds(segments, '/');
    var path := PathOf(segments);
    assert path[1..] == Join(segments, '/');
    assert StripLeft(path, '/') == StripLeft(path[1..], '/') == Join(segments, '/');
    SplitJoin(segments, '/');
  }

  /** Filling a well-formed template with non-empty slash-free values always matches it. */
  lemma FilledTemplateMatches(parts: seq<Part>, values: seq<string>)
    requires parts != [] && |values| == |parts|
    requires forall p :: p in parts ==> WellFormedPart(p)
    requires forall v :: v in values ==> v != "" && '/' !in v
    ensures Matches(PathOf(TemplateSegments(parts)), PathOf(FilledSegments(parts, values)))
  {
    var template, path := TemplateSegments(parts), FilledSegments(parts, values);
    forall k | 0 <= k < |parts|
      ensures template[k] != "" && '/' !in template[k]
      ensures path[k] != "" && '/' !in path[k]
      ensures SegmentMatches(template[k], path[k])
    {
      assert WellFormedPart(parts[k]);
      assert values[k] in values;
    }
    SegmentsOfPath(template);
    SegmentsOfPath(path);
  }

  /** A path matches exactly when it is a filling of the template's parameters. */
  lemma MatchesIffFilling(parts: seq<Part>, path: string)
    requires parts != []
    requires forall p :: p in parts ==> WellFormedPart(p)
    ensures Matches(PathOf(TemplateSegments(parts)), path) <==>
            exists values :: |values| == |parts| && Segments(path) == FilledSegments(parts, values)
  {
    var template, got := TemplateSegments(parts), Segments(path);
    forall k | 0 <= k < |parts|
      ensures template[k] != "" && '/' !in template[k]
      ensures IsParameter(template[k]) <==> parts[k].Parameter?
    {
      assert WellFormedPart(parts[k]);
    }
    SegmentsOfPath(template);
    if Matches(PathOf(template), path) {
      assert forall k :: 0 <= k < |parts| ==> SegmentMatches(template[k], got[k]);
      assert got == FilledSegments(parts, got);
    }
    if values :| |values| == |parts| && got == FilledSegments(parts, values) {
      assert forall k :: 0 <= k < |parts| ==> SegmentMatches(template[k], got[k]);
    }
  }

  /** A template matches segment by segment: one that begins with a brace matches anything, any other itself. */
  lemma MatchesIs(template: string, path: string)
    ensures var want, got := Segments(template), Segments(path);
            Matches(template, path) <==>
            && |want| == |got|
            && forall k :: 0 <= k < |want| ==> (want[k] != "" && want[k][0] == '{') || want[k] == got[k]
  {
  }

  /** Segments are what stands between the slashes, without those at both ends. */
  lemma SegmentsAre(path: string) returns (left: nat, right: nat)
    ensures left <= right <= |path| && Join(Segments(path), '/') == path[left..right]
    ensures forall s :: s in Segments(path) ==> '/' !in s
    ensures forall i :: 0 <= i < left || right <= i < |path| ==> path[i] == '/'
    ensures left < right ==> path[left] != '/' && path[right - 1] != '/'
  {
    left, right := StripIs(path, '/');
    JoinSplit(Strip(path, '/'), '/');
  }
}
