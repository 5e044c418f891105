/**
 Marker insertion of the test classifier (`process_file`): markers are collected
 in any order, sorted by descending line number and inserted one by one.
 A line remembers whether it was inserted.
 */
module MarkerInsertion {
  import opened Prelude
  import opened Text
  import opened Lines

  datatype Line = Line(text: string, inserted: bool)

  /** A pending insertion: a 1-based line number and a category. */
  datatype Insert = Insert(lineno: nat, category: string)

  function Marker(line: Line, category: string): (m: Line)
    ensures m.inserted
  {
    Line(Indent(line.text) + "@pytest.mark." + category + "\n", true)
  }

  // ---------------------------------------------------------------- the order

  ghost predicate Descending(inserts: seq<Insert>) {
    forall i, j :: 0 <= i < j < |inserts| ==> inserts[i].lineno > inserts[j].lineno
  }

  ghost predicate DistinctLines(inserts: seq<Insert>) {
    forall i, j :: 0 <= i < j < |inserts| ==> inserts[i].lineno != inserts[j].lineno
  }

  function Place(x: Insert, sorted: seq<Insert>): (r: seq<Insert>)
    ensures forall y :: y in r <==> y == x || y in sorted
    ensures |r| == |sorted| + 1
  {
    if sorted == [] || x.lineno > sorted[0].lineno then [x] + sorted
    else
      assert sorted == [sorted[0]] + sorted[1..];
      [sorted[0]] + Place(x, sorted[1..])
  }

  /** `sorted(inserts, reverse=True)`; with distinct line numbers categories never decide. */
  function SortedDescending(inserts: seq<Insert>): (r: seq<Insert>)
    ensures forall y :: y in r <==> y in inserts
    ensures |r| == |inserts|
  {
    if inserts == [] then []
    else
      assert inserts == [inserts[0]] + inserts[1..];
      Place(inserts[0], SortedDescending(inserts[1..]))
  }

  lemma HeadIsGreatest(sorted: seq<Insert>, y: Insert)
    requires Descending(sorted) && sorted != [] && y in sorted[1..]
    ensures sorted[0].lineno > y.lineno
  {
    var k :| 0 <= k < |sorted[1..]| && sorted[1..][k] == y;
    assert sorted[k + 1] == y;
  }

  lemma {:induction false} PlaceKeepsOrder(x: Insert, sorted: seq<Insert>)
    requires Descending(sorted)
    requires forall y :: y in sorted ==> y.lineno != x.lineno
    ensures Descending(Place(x, sorted))
  {
    if sorted == [] || x.lineno > sorted[0].lineno {
    } else {
      assert sorted[0] in sorted && forall y :: y in sorted[1..] ==> y in sorted;
      PlaceKeepsOrder(x, sorted[1..]);
      var rest := Place(x, sorted[1..]);
      forall j | 0 <= j < |rest|
        ensures sorted[0].lineno > rest[j].lineno
      {
        assert rest[j] in rest;
        if rest[j] in sorted[1..] {
          HeadIsGreatest(sorted, rest[j]);
        }
      }
    }
  }

  lemma {:induction false} SortingDescends(inserts: seq<Insert>)
    requires DistinctLines(inserts)
    ensures Descending(SortedDescending(inserts))
  {
    if inserts != [] {
      SortingDescends(inserts[1..]);
      forall y | y in SortedDescending(inserts[1..])
        ensures y.lineno != inserts[0].lineno
      {
        var k :| 0 <= k < |inserts[1..]| && inserts[1..][k] == y;
        assert inserts[k + 1] == y;
      }
      PlaceKeepsOrder(inserts[0], SortedDescending(inserts[1..]));
    }
  }

  // ----------------------------------------------- inserting them all at once

  /** What goes before line `k` (0-based). */
  function Before(lines: seq<Line>, inserts: seq<Insert>, k: nat): (r: seq<Line>)
    requires k < |lines|
  {
    if inserts == [] then []
    else if inserts[0].lineno == k + 1 then [Marker(lines[k], inserts[0].category)]
    else Before(lines, inserts[1..], k)
  }

  /** Every line from `from` on with its own marker, if it has one, immediately before it. */
  function Annotated(lines: seq<Line>, inserts: seq<Insert>, from: nat): (r: seq<Line>)
    requires from <= |lines|
    decreases |lines| - from
  {
    if from == |lines| then []
    else Before(lines, inserts, from) + [lines[from]] + Annotated(lines, inserts, from + 1)
  }

  lemma {:induction false} BeforeNone(lines: seq<Line>, inserts: seq<Insert>, k: nat)
    requires k < |lines|
    requires forall x :: x in inserts ==> x.lineno != k + 1
    ensures Before(lines, inserts, k) == []
  {
    if inserts != [] {
      assert inserts[0] in inserts && forall x :: x in inserts[1..] ==> x in inserts;
      BeforeNone(lines, inserts[1..], k);
    }
  }

  lemma {:induction false} BeforeOwn(lines: seq<Line>, inserts: seq<Insert>, x: Insert)
    requires x in inserts && DistinctLines(inserts) && 1 <= x.lineno <= |lines|
    ensures Before(lines, inserts, x.lineno - 1) == [Marker(lines[x.lineno - 1], x.category)]
  {
    if inserts[0] != x {
      assert inserts == [inserts[0]] + inserts[1..];
      var k :| 0 <= k < |inserts[1..]| && inserts[1..][k] == x;
      assert inserts[k + 1] == x;
      BeforeOwn(lines, inserts[1..], x);
    }
  }

  /** The set of insertions decides, not their order. */
  lemma BeforeIsOrderFree(lines: seq<Line>, a: seq<Insert>, b: seq<Insert>, k: nat)
    requires k < |lines| && DistinctLines(a) && DistinctLines(b)
    requires forall x :: x in a <==> x in b
    ensures Before(lines, a, k) == Before(lines, b, k)
  {
    if x :| x in a && x.lineno == k + 1 {
      BeforeOwn(lines, a, x);
      BeforeOwn(lines, b, x);
    } else {
      BeforeNone(lines, a, k);
      BeforeNone(lines, b, k);
    }
  }

  lemma {:induction false} AnnotatedIsOrderFree(lines: seq<Line>, a: seq<Insert>, b: seq<Insert>, from: nat)
    requires from <= |lines| && DistinctLines(a) && DistinctLines(b)
    requires forall x :: x in a <==> x in b
    ensures Annotated(lines, a, from) == Annotated(lines, b, from)
    decreases |lines| - from
  {
    if from < |lines| {
      BeforeIsOrderFree(lines, a, b, from);
      AnnotatedIsOrderFree(lines, a, b, from + 1);
    }
  }

  lemma GapStep<T>(lines: seq<T>, from: nat, to: nat, tail: seq<T>)
    requires from < to <= |lines|
    ensures [] + [lines[from]] + (lines[from + 1..to] + tail) == lines[from..to] + tail
  {
    assert lines[from..to] == [lines[from]] + lines[from + 1..to];
  }

  /** A stretch without insertions stays as it is. */
  lemma {:induction false} AnnotatedGap(lines: seq<Line>, inserts: seq<Insert>, from: nat, to: nat)
    requires from <= to <= |lines|
    requires forall x :: x in inserts ==> !(from < x.lineno <= to)
    ensures Annotated(lines, inserts, from) == lines[from..to] + Annotated(lines, inserts, to)
    decreases |lines| - from
  {
    if from < to {
      BeforeNone(lines, inserts, from);
      AnnotatedGap(lines, inserts, from + 1, to);
      GapStep(lines, from, to, Annotated(lines, inserts, to));
    } else {
      assert lines[from..to] == [];
      AppendNothing(Annotated(lines, inserts, to), lines);
    }
  }

  // ----------------------------------------------------------------- the loop

  method InsertMarkers(source: seq<Line>, inserts: seq<Insert>) returns (lines: seq<Line>)
    requires DistinctLines(inserts)
    requires forall x :: x in inserts ==> 1 <= x.lineno <= |source|
    ensures lines == Annotated(source, inserts, 0)
  {
    SortingDescends(inserts);
    var order := SortedDescending(inserts);
    lines := source;
    AppendNothing(source, source);
    var i := 0;
    while i < |order|
      invariant 0 <= i <= |order|
      invariant InsertedSoFar(source, order, i, lines)
    {
      InsertionStep(source, order, i, lines);
      var lineno, category := order[i].lineno, order[i].category;
      lines := lines[..lineno - 1] + [Marker(lines[lineno - 1], category)] + lines[lineno - 1..];
      i := i + 1;
    }
    NothingLeft(source, order, Done(source, order, |order|));
    AnnotatedIsOrderFree(source, order, inserts, 0);
  }

  /** The first line (0-based) at or behind which everything has its final form after `i` insertions. */
  function Done(source: seq<Line>, order: seq<Insert>, i: nat): (done: nat)
    requires i <= |order| && forall x :: x in order ==> 1 <= x.lineno <= |source|
    ensures done <= |source|
  {
    if i == 0 then |source|
    else
      assert order[i - 1] in order;
      order[i - 1].lineno - 1
  }

  ghost predicate InsertedSoFar(source: seq<Line>, order: seq<Insert>, i: nat, lines: seq<Line>)
    requires i <= |order| && forall x :: x in order ==> 1 <= x.lineno <= |source|
  {
    var done := Done(source, order, i);
    lines == source[..done] + Annotated(source, order, done)
  }

  lemma InsertionStep(source: seq<Line>, order: seq<Insert>, i: nat, lines: seq<Line>)
    requires Descending(order) && i < |order|
    requires forall x :: x in order ==> 1 <= x.lineno <= |source|
    requires InsertedSoFar(source, order, i, lines)
    ensures 1 <= order[i].lineno <= |lines|
    ensures var at := order[i].lineno - 1;
            InsertedSoFar(source, order, i + 1, lines[..at] + [Marker(lines[at], order[i].category)] + lines[at..])
  {
    var done := Done(source, order, i);
    assert order[i] in order;
    var at := order[i].lineno - 1;
    assert at < done && lines[at] == source[at];
    NoneBetween(source, order, i, done);
    AnnotatedGap(source, order, at + 1, done);
    BeforeOwn(source, order, order[i]);
    var marker, tail := Marker(source[at], order[i].category), Annotated(source, order, done);
    assert Annotated(source, order, at) == [marker] + [source[at]] + (source[at + 1..done] + tail);
    SpliceAt(source, at, done, marker, tail);
  }

  lemma NoneBetween(source: seq<Line>, order: seq<Insert>, i: nat, done: nat)
    requires Descending(order) && i < |order| && done <= |source|
    requires forall x :: x in order ==> 1 <= x.lineno <= |source|
    requires done == if i == 0 then |source| else order[i - 1].lineno - 1
    ensures forall x :: x in order ==> !(order[i].lineno < x.lineno <= done)
  {
    forall x | x in order
      ensures !(order[i].lineno < x.lineno <= done)
    {
      var k :| 0 <= k < |order| && order[k] == x;
    }
  }

  lemma SpliceAt<T>(source: seq<T>, at: nat, done: nat, x: T, tail: seq<T>)
    requires at < done <= |source|
    ensures var lines := source[..done] + tail;
            lines[..at] + [x] + lines[at..] == source[..at] + ([x] + [source[at]] + (source[at + 1..done] + tail))
  {
    var lines := source[..done] + tail;
    assert lines[at..] == [source[at]] + (source[at + 1..done] + tail);
  }

  lemma NothingLeft(source: seq<Line>, order: seq<Insert>, done: nat)
    requires Descending(order) && done <= |source|
    requires forall x :: x in order ==> 1 <= x.lineno
    requires if order == [] then done == |source| else done == order[|order| - 1].lineno - 1
    ensures source[..done] + Annotated(source, order, done) == Annotated(source, order, 0)
  {
    forall x | x in order
      ensures !(0 < x.lineno <= done)
    {
      var k :| 0 <= k < |order| && order[k] == x;
    }
    AnnotatedGap(source, order, 0, done);
    assert source[0..done] == source[..done];
  }

  // --------------------------------------------------------------- properties

  function Originals(lines: seq<Line>): (r: seq<Line>)
  {
    if lines == [] then []
    else (if lines[0].inserted then [] else [lines[0]]) + Originals(lines[1..])
  }

  lemma {:induction false} BeforeIsMarker(lines: seq<Line>, inserts: seq<Insert>, k: nat)
    requires k < |lines|
    ensures |Before(lines, inserts, k)| <= 1
    ensures Before(lines, inserts, k) != [] ==> Before(lines, inserts, k)[0].inserted
  {
    if inserts != [] && inserts[0].lineno != k + 1 {
      BeforeIsMarker(lines, inserts[1..], k);
    }
  }

  lemma OriginalsOfFirst(line: Line, rest: seq<Line>)
    ensures line.inserted ==> Originals([line] + rest) == Originals(rest)
    ensures !line.inserted ==> Originals([line] + rest) == [line] + Originals(rest)
  {
    assert ([line] + rest)[1..] == rest;
    AppendNothing(Originals(rest), Originals(rest));
  }

  lemma OneLineBlock(before: seq<Line>, line: Line, rest: seq<Line>)
    requires |before| <= 1 && (before != [] ==> before[0].inserted) && !line.inserted
    ensures Originals(before + [line] + rest) == [line] + Originals(rest)
  {
    OriginalsOfFirst(line, rest);
    if before == [] {
      assert before + [line] + rest == [line] + rest;
    } else {
      OriginalsOfFirst(before[0], [line] + rest);
      assert before + [line] + rest == [before[0]] + ([line] + rest);
    }
  }

  lemma SuffixStep<T>(s: seq<T>, n: nat)
    requires n < |s|
    ensures s[n..] == [s[n]] + s[n + 1..]
  {
  }

  /** Deleting the markers gives back the file exactly. */
  lemma {:induction false} DeletingMarkersRestores(source: seq<Line>, inserts: seq<Insert>, from: nat)
    requires from <= |source|
    requires forall k :: 0 <= k < |source| ==> !source[k].inserted
    ensures Originals(Annotated(source, inserts, from)) == source[from..]
    decreases |source| - from
  {
    if from < |source| {
      var before, rest := Before(source, inserts, from), Annotated(source, inserts, from + 1);
      BeforeIsMarker(source, inserts, from);
      DeletingMarkersRestores(source, inserts, from + 1);
      OneLineBlock(before, source[from], rest);
      SuffixStep(source, from);
    }
  }

  /** Where the original line `k` ends up. */
  function Landing(source: seq<Line>, inserts: seq<Insert>, from: nat, k: nat): (p: nat)
    requires from <= k < |source|
    decreases k - from
  {
    |Before(source, inserts, from)| + (if k == from then 0 else 1 + Landing(source, inserts, from + 1, k))
  }

  lemma BlockShifts(before: seq<Line>, line: Line, rest: seq<Line>, p: nat)
    requires 1 <= p < |rest|
    ensures var all, q := before + [line] + rest, |before| + (1 + p);
            1 <= q < |all| && all[q] == rest[p] && all[q - 1] == rest[p - 1]
  {
  }

  /** Each marker ends up immediately before its own original line, which itself is unchanged. */
  lemma {:induction false} MarkerPrecedesItsLine(source: seq<Line>, inserts: seq<Insert>, from: nat, x: Insert)
    requires x in inserts && DistinctLines(inserts) && from < x.lineno <= |source|
    ensures var p := Landing(source, inserts, from, x.lineno - 1);
            && 1 <= p < |Annotated(source, inserts, from)|
            && Annotated(source, inserts, from)[p] == source[x.lineno - 1]
            && Annotated(source, inserts, from)[p - 1] == Marker(source[x.lineno - 1], x.category)
    decreases x.lineno - from
  {
    if from == x.lineno - 1 {
      BeforeOwn(source, inserts, x);
    } else {
      MarkerPrecedesItsLine(source, inserts, from + 1, x);
      BlockShifts(Before(source, inserts, from), source[from], Annotated(source, inserts, from + 1),
                  Landing(source, inserts, from + 1, x.lineno - 1));
    }
  }

  /** A line without a marker follows its original predecessor directly. */
  lemma {:induction false} UnmarkedLineStays(source: seq<Line>, inserts: seq<Insert>, from: nat, k: nat)
    requires from < k < |source|
    requires forall x :: x in inserts ==> x.lineno != k + 1
    ensures var p := Landing(source, inserts, from, k);
            && 1 <= p < |Annotated(source, inserts, from)|
            && Annotated(source, inserts, from)[p] == source[k]
            && Annotated(source, inserts, from)[p - 1] == source[k - 1]
    decreases k - from
  {
    if from == k - 1 {
      BeforeNone(source, inserts, k);
      assert Annotated(source, inserts, k)[0] == source[k];
    } else {
      UnmarkedLineStays(source, inserts, from + 1, k);
      BlockShifts(Before(source, inserts, from), source[from], Annotated(source, inserts, from + 1),
                  Landing(source, inserts, from + 1, k));
    }
  }

  // ------------------------------------------------- lines and line numbers

  /**
   The file as the program cuts it, with `str.splitlines`.  The line numbers of
   the syntax tree count line feeds only.
   */
  function FileLines(text: string): (lines: seq<Line>)
    ensures |lines| == |KeptLines(text, SPLITLINES)|
    ensures forall k :: 0 <= k < |lines| ==> lines[k] == Line(KeptLines(text, SPLITLINES)[k], false)
  {
    var kept := KeptLines(text, SPLITLINES);
    seq(|kept|, k requires 0 <= k < |kept| => Line(kept[k], false))
  }

  /**
   The marker of a function lands before the line on which the function begins if
   and only if nothing but line feeds ends a line before it; otherwise it lands
   earlier in the file.
   */
  lemma MarkerLandsAtItsFunctionIff(text: string, inserts: seq<Insert>, x: Insert)
    requires x in inserts && DistinctLines(inserts) && 1 <= x.lineno <= |FileLines(text)|
    requires x.lineno - 1 <= Breaks(text, NEWLINE)
    ensures x.lineno - 1 <= Breaks(text, SPLITLINES)
    ensures var own, landed := LineStart(text, NEWLINE, x.lineno - 1), LineStart(text, SPLITLINES, x.lineno - 1);
            var p := Landing(FileLines(text), inserts, 0, x.lineno - 1);
            var result := Annotated(FileLines(text), inserts, 0);
            && 1 <= p < |result|
            && result[p - 1] == Marker(result[p], x.category)
            && OpensWith(text[landed..], result[p].text)
            && landed <= own
            && (landed == own <==> NoOthers(text[..own], NEWLINE, SPLITLINES))
  {
    KeptLineBegins(text, SPLITLINES, x.lineno - 1);
    MarkerPrecedesItsLine(FileLines(text), inserts, 0, x);
    LineStartsAgreeIff(text, NEWLINE, SPLITLINES, x.lineno - 1);
  }

  /** A form feed before a function: its marker goes before the rest of the broken line instead. */
  lemma FormFeedMisplacesMarker()
    ensures var text := "a" + "\U{000c}" + "b\ndef t():\n";
            && 1 <= Breaks(text, NEWLINE) && 1 <= Breaks(text, SPLITLINES)
            && LineStart(text, NEWLINE, 1) == 4 && LineStart(text, SPLITLINES, 1) == 2
  {
    var text := "a" + "\U{000c}" + "b\ndef t():\n";
    assert text[..2] == "a" + "\U{000c}" && text[..4] == "a" + "\U{000c}" + "b" + "\n";
    assert !NEWLINE('a') && !NEWLINE('\U{000c}') && !NEWLINE('b') && NEWLINE('\n');
    assert !SPLITLINES('a') && SPLITLINES('\U{000c}');
    OneCharacter('a');
    OneCharacter('\U{000c}');
    OneCharacter('b');
    OneCharacter('\n');
    BreaksAppend("a", "\U{000c}", NEWLINE);
    BreaksAppend("a" + "\U{000c}", "b", NEWLINE);
    BreaksAppend("a" + "\U{000c}" + "b", "\n", NEWLINE);
    BreaksAppend("a", "\U{000c}", SPLITLINES);
    OnlyLineStart(text, NEWLINE, 1, 4);
    OnlyLineStart(text, SPLITLINES, 1, 2);
  }

  lemma OneCharacter(c: char)
    ensures Breaks([c], NEWLINE) == (if NEWLINE(c) then 1 else 0)
    ensures Breaks([c], SPLITLINES) == (if SPLITLINES(c) then 1 else 0)
  {
    assert [c][..0] == [];
  }

  /** A marker reads `@pytest.mark.` and its category, indented like its line. */
  lemma MarkerReads(line: Line, category: string) returns (n: nat)
    ensures n <= |line.text| && Marker(line, category).text == line.text[..n] + "@pytest.mark." + category + "\n"
    ensures forall k :: 0 <= k < n ==> IsSpace(line.text[k])
    ensures n < |line.text| ==> !IsSpace(line.text[n])
    ensures Marker(line, category).inserted
  {
    n := |Indent(line.text)|;
    assert forall k :: 0 <= k < n ==> line.text[k] == Indent(line.text)[k] && Indent(line.text)[k] in Indent(line.text);
  }
}
