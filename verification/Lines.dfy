/** Cutting text into lines, when more characters than the line feed may end one. */
module Lines {
  import opened Prelude

  /** The characters `str.splitlines` ends a line at. */
  predicate IsLineBreak(c: char) {
    || '\U{000a}' <= c <= '\U{000d}'
    || '\U{001c}' <= c <= '\U{001e}'
    || c in {'\U{0085}', '\U{2028}', '\U{2029}'}
  }

  const SPLITLINES: char -> bool := c => IsLineBreak(c)

  predicate Unbroken(s: string, breaks: char -> bool) {
    forall c :: c in s ==> !breaks(c)
  }

  function FirstBreak(text: string, breaks: char -> bool): (k: nat)
    ensures k <= |text| && Unbroken(text[..k], breaks)
    ensures k < |text| ==> breaks(text[k])
  {
    if text == "" || breaks(text[0]) then 0
    else
      assert text[..1 + FirstBreak(text[1..], breaks)] == [text[0]] + text[1..][..FirstBreak(text[1..], breaks)];
      1 + FirstBreak(text[1..], breaks)
  }

  /** Every line break ends a line; what follows the last one is a line unless it is empty. */
  function LinesOf(text: string, breaks: char -> bool): (lines: seq<string>)
    ensures forall i :: 0 <= i < |lines| ==> Unbroken(lines[i], breaks)
    decreases |text|
  {
    var k := FirstBreak(text, breaks);
    if text == "" then []
    else if k == |text| then
      assert text[..k] == text;
      [text]
    else [text[..k]] + LinesOf(text[k + 1..], breaks)
  }

  lemma {:induction false} BreakBehind(line: string, rest: string, breaks: char -> bool)
    requires Unbroken(line, breaks) && breaks('\n')
    ensures FirstBreak(line + "\n" + rest, breaks) == |line|
  {
    var text := line + "\n" + rest;
    if line != "" {
      assert text[1..] == line[1..] + "\n" + rest;
      BreakBehind(line[1..], rest, breaks);
    }
  }

  lemma LineThenRest(line: string, rest: string, breaks: char -> bool)
    requires Unbroken(line, breaks) && breaks('\n')
    ensures LinesOf(line + "\n" + rest, breaks) == [line] + LinesOf(rest, breaks)
  {
    BreakBehind(line, rest, breaks);
    var text := line + "\n" + rest;
    assert text[..|line|] == line && text[|line| + 1..] == rest;
  }

  // ------------------------------------------------------- where a line begins

  const NEWLINE: char -> bool := c => c == '\n'

  function Breaks(text: string, breaks: char -> bool): (n: nat)
  {
    if text == "" then 0
    else Breaks(text[..|text| - 1], breaks) + (if breaks(text[|text| - 1]) then 1 else 0)
  }

  /** The offset behind the `k`-th line break. */
  function LineStart(text: string, breaks: char -> bool, k: nat): (offset: nat)
    requires k <= Breaks(text, breaks)
    ensures offset <= |text|
  {
    if k == 0 then 0
    else if k <= Breaks(text[..|text| - 1], breaks) then LineStart(text[..|text| - 1], breaks, k)
    else |text|
  }

  /** What makes an offset the beginning of line `k`. */
  predicate BeginsLine(text: string, breaks: char -> bool, k: nat, offset: nat) {
    && offset <= |text|
    && Breaks(text[..offset], breaks) == k
    && (offset > 0 ==> breaks(text[offset - 1]))
  }

  lemma SliceOfInit<T>(s: seq<T>, n: nat)
    requires s != [] && n < |s|
    ensures s[..|s| - 1][..n] == s[..n]
  {
  }

  lemma {:induction false} LineStartBegins(text: string, breaks: char -> bool, k: nat)
    requires k <= Breaks(text, breaks)
    ensures BeginsLine(text, breaks, k, LineStart(text, breaks, k))
  {
    if k == 0 {
      assert text[..0] == "";
    } else if k <= Breaks(text[..|text| - 1], breaks) {
      LineStartBegins(text[..|text| - 1], breaks, k);
      SliceOfInit(text, LineStart(text, breaks, k));
    } else {
      assert text[..|text|] == text;
    }
  }

  /** Only one offset begins line `k`. */
  lemma {:induction false} OnlyLineStart(text: string, breaks: char -> bool, k: nat, offset: nat)
    requires BeginsLine(text, breaks, k, offset)
    ensures k <= Breaks(text, breaks) && LineStart(text, breaks, k) == offset
  {
    if offset == |text| {
      assert text[..|text|] == text;
    } else {
      SliceOfInit(text, offset);
      OnlyLineStart(text[..|text| - 1], breaks, k, offset);
    }
  }

  lemma {:induction false} BreaksAppend(a: string, b: string, breaks: char -> bool)
    ensures Breaks(a + b, breaks) == Breaks(a, breaks) + Breaks(b, breaks)
  {
    if b == "" {
      AppendNothing(a, b);
    } else {
      assert (a + b)[..|a + b| - 1] == a + b[..|b| - 1];
      BreaksAppend(a, b[..|b| - 1], breaks);
    }
  }

  ghost predicate Refines(few: char -> bool, more: char -> bool) {
    forall c :: few(c) ==> more(c)
  }

  /** No character ends a line for `more` only. */
  predicate NoOthers(text: string, few: char -> bool, more: char -> bool) {
    forall i :: 0 <= i < |text| && more(text[i]) ==> few(text[i])
  }

  lemma {:induction false} CountsAgreeIff(text: string, few: char -> bool, more: char -> bool)
    requires Refines(few, more)
    ensures Breaks(text, few) <= Breaks(text, more)
    ensures Breaks(text, few) == Breaks(text, more) <==> NoOthers(text, few, more)
  {
    if text != "" {
      CountsAgreeIff(text[..|text| - 1], few, more);
    }
  }

  lemma MoreBreaksFollow(text: string, breaks: char -> bool, a: nat, b: nat)
    requires a < b <= |text| && breaks(text[b - 1])
    ensures Breaks(text[..a], breaks) < Breaks(text[..b], breaks)
  {
    BreaksAppend(text[..a], text[a..b], breaks);
    assert text[..a] + text[a..b] == text[..b];
    assert text[a..b][b - a - 1] == text[b - 1];
  }

  /** Line `k` begins at the same place for both exactly when nothing before it ends a line for one only. */
  lemma LineStartsAgreeIff(text: string, few: char -> bool, more: char -> bool, k: nat)
    requires Refines(few, more) && k <= Breaks(text, few)
    ensures k <= Breaks(text, more) && LineStart(text, more, k) <= LineStart(text, few, k)
    ensures LineStart(text, more, k) == LineStart(text, few, k) <==>
            NoOthers(text[..LineStart(text, few, k)], few, more)
  {
    var start := LineStart(text, few, k);
    CountsAgreeIff(text, few, more);
    LineStartBegins(text, few, k);
    LineStartBegins(text, more, k);
    CountsAgreeIff(text[..start], few, more);
    if start < LineStart(text, more, k) {
      MoreBreaksFollow(text, more, start, LineStart(text, more, k));
    }
    if NoOthers(text[..start], few, more) {
      OnlyLineStart(text, more, k, start);
    }
  }

  /** `text.splitlines(keepends=True)` */
  function KeptLines(text: string, breaks: char -> bool): (lines: seq<string>)
    decreases |text|
  {
    var k := FirstBreak(text, breaks);
    if text == "" then []
    else if k == |text| then [text]
    else [text[..k + 1]] + KeptLines(text[k + 1..], breaks)
  }

  /** The lines put together are the text. */
  lemma {:induction false} KeptLinesJoin(text: string, breaks: char -> bool)
    ensures Concat(KeptLines(text, breaks)) == text
    decreases |text|
  {
    var k := FirstBreak(text, breaks);
    if text != "" && k == |text| {
      assert [text][1..] == [];
    } else if text != "" {
      KeptLinesJoin(text[k + 1..], breaks);
      var rest := KeptLines(text[k + 1..], breaks);
      assert ([text[..k + 1]] + rest)[1..] == rest;
      assert text[..k + 1] + text[k + 1..] == text;
    }
  }

  lemma {:induction false} UnbrokenHasNone(text: string, breaks: char -> bool)
    requires Unbroken(text, breaks)
    ensures Breaks(text, breaks) == 0
  {
    if text != "" {
      InitAndLast(text);
      UnbrokenHasNone(text[..|text| - 1], breaks);
    }
  }

  lemma FirstLineEnds(text: string, breaks: char -> bool)
    requires FirstBreak(text, breaks) < |text|
    ensures Breaks(text[..FirstBreak(text, breaks) + 1], breaks) == 1
  {
    var k := FirstBreak(text, breaks);
    UnbrokenHasNone(text[..k], breaks);
    BreaksOfSlice(text, breaks, k);
  }

  lemma BreaksOfSlice(text: string, breaks: char -> bool, k: nat)
    requires k < |text|
    ensures Breaks(text[..k + 1], breaks) == Breaks(text[..k], breaks) + (if breaks(text[k]) then 1 else 0)
  {
    var line := text[..k + 1];
    assert line[..|line| - 1] == text[..k] && line[|line| - 1] == text[k];
  }

  lemma SliceBehind<T>(s: seq<T>, n: nat, offset: nat)
    requires n + offset <= |s|
    ensures s[..n] + s[n..][..offset] == s[..n + offset]
    ensures s[n..][offset..] == s[n + offset..]
    ensures offset > 0 ==> s[n..][offset - 1] == s[n + offset - 1]
  {
  }

  predicate OpensWith(text: string, line: string) {
    |line| <= |text| && text[..|line|] == line
  }

  lemma {:induction false} KeptOpens(text: string, breaks: char -> bool)
    requires text != ""
    ensures OpensWith(text, KeptLines(text, breaks)[0])
  {
    assert text[..|text|] == text;
  }

  lemma {:induction false} KeptFirst(text: string, breaks: char -> bool)
    requires text != ""
    ensures |KeptLines(text, breaks)| > 1 ==> FirstBreak(text, breaks) < |text|
    ensures FirstBreak(text, breaks) < |text| ==>
              KeptLines(text, breaks)[1..] == KeptLines(text[FirstBreak(text, breaks) + 1..], breaks)
  {
  }

  /** Each line is the stretch of text that begins at its offset. */
  lemma {:induction false} KeptLineBegins(text: string, breaks: char -> bool, k: nat)
    requires k < |KeptLines(text, breaks)|
    ensures k <= Breaks(text, breaks)
    ensures OpensWith(text[LineStart(text, breaks, k)..], KeptLines(text, breaks)[k])
    decreases |text|
  {
    if k == 0 {
      FirstKeptBegins(text, breaks);
    } else {
      KeptFirst(text, breaks);
      KeptLineBegins(text[FirstBreak(text, breaks) + 1..], breaks, k - 1);
      LaterKeptBegins(text, breaks, k, FirstBreak(text, breaks));
    }
  }

  lemma FirstKeptBegins(text: string, breaks: char -> bool)
    requires text != ""
    ensures OpensWith(text[LineStart(text, breaks, 0)..], KeptLines(text, breaks)[0])
  {
    KeptOpens(text, breaks);
    assert text[0..] == text;
  }

  lemma LaterKeptBegins(text: string, breaks: char -> bool, k: nat, b: nat)
    requires 0 < k < |KeptLines(text, breaks)| && b == FirstBreak(text, breaks) < |text|
    requires KeptLines(text, breaks)[1..] == KeptLines(text[b + 1..], breaks)
    requires k - 1 <= Breaks(text[b + 1..], breaks)
    requires OpensWith(text[b + 1..][LineStart(text[b + 1..], breaks, k - 1)..],
                       KeptLines(text[b + 1..], breaks)[k - 1])
    ensures k <= Breaks(text, breaks)
    ensures OpensWith(text[LineStart(text, breaks, k)..], KeptLines(text, breaks)[k])
  {
    LaterLine(text, breaks, k, b);
    TailElement(KeptLines(text, breaks), k);
  }

  lemma TailElement<T>(s: seq<T>, k: nat)
    requires 0 < k < |s|
    ensures s[k] == s[1..][k - 1]
  {
  }

  lemma LaterLine(text: string, breaks: char -> bool, k: nat, b: nat)
    requires b == FirstBreak(text, breaks) < |text| && k > 0
    requires k - 1 <= Breaks(text[b + 1..], breaks)
    ensures k <= Breaks(text, breaks)
    ensures LineStart(text, breaks, k) == b + 1 + LineStart(text[b + 1..], breaks, k - 1)
    ensures text[LineStart(text, breaks, k)..] == text[b + 1..][LineStart(text[b + 1..], breaks, k - 1)..]
  {
    var offset := LineStart(text[b + 1..], breaks, k - 1);
    LineStartBegins(text[b + 1..], breaks, k - 1);
    FirstLineEnds(text, breaks);
    BeginsBehind(text, breaks, k - 1, b + 1, offset);
    OnlyLineStart(text, breaks, k, b + 1 + offset);
    SliceBehind(text, b + 1, offset);
  }

  /** A line of what follows the first line is a line of the whole. */
  lemma BeginsBehind(text: string, breaks: char -> bool, k: nat, n: nat, offset: nat)
    requires 0 < n <= |text| && breaks(text[n - 1]) && Breaks(text[..n], breaks) == 1
    requires BeginsLine(text[n..], breaks, k, offset)
    ensures BeginsLine(text, breaks, k + 1, n + offset)
  {
    SliceBehind(text, n, offset);
    BreaksAppend(text[..n], text[n..][..offset], breaks);
  }
}
