/** The few string operations the modelled code relies on. */
module Text {
  /** White space in the sense of `str.strip()` and `\s`. */
  predicate IsSpace(c: char) {
    || '\U{0009}' <= c <= '\U{000d}'
    || '\U{001c}' <= c <= '\U{0020}'
    || c in {'\U{0085}', '\U{00a0}', '\U{1680}', '\U{2028}', '\U{2029}', '\U{202f}', '\U{205f}', '\U{3000}'}
    || '\U{2000}' <= c <= '\U{200a}'
  }

  /** By code point: the separators and controls Python strips. */
  lemma SpacesAre(c: char)
    ensures IsSpace(c) <==> c as int in {9, 10, 11, 12, 13, 28, 29, 30, 31, 32, 133, 160, 5760,
                                         8192, 8193, 8194, 8195, 8196, 8197, 8198, 8199, 8200, 8201, 8202,
                                         8232, 8233, 8239, 8287, 12288}
  {
  }

  /** `not s.strip()` */
  predicate IsBlank(s: string) {
    forall c :: c in s ==> IsSpace(c)
  }

  /** The leading white space of `s`. */
  function Indent(s: string): (r: string)
    ensures |r| <= |s| && r == s[..|r|] && IsBlank(r)
    ensures |r| < |s| ==> !IsSpace(s[|r|])
  {
    if s == "" || !IsSpace(s[0]) then "" else [s[0]] + Indent(s[1..])
  }

  /** `s.lstrip()` */
  function LStrip(s: string): (r: string)
    ensures r == "" || !IsSpace(r[0])
  {
    s[|Indent(s)|..]
  }

  lemma {:induction false} LStripPadded(pad: string, text: string)
    requires IsBlank(pad)
    requires text == "" || !IsSpace(text[0])
    ensures LStrip(pad + text) == text
  {
    if pad == "" {
      assert pad + text == text;
    } else {
      assert (pad + text)[0] == pad[0] && (pad + text)[1..] == pad[1..] + text;
      LStripPadded(pad[1..], text);
      assert Indent(pad + text) == [pad[0]] + Indent(pad[1..] + text);
    }
  }

  /** `separator.join(parts)` for a one-character separator. */
  function Join(parts: seq<string>, separator: char): (r: string)
  {
    if parts == [] then ""
    else if |parts| == 1 then parts[0]
    else parts[0] + [separator] + Join(parts[1..], separator)
  }

  /** `s.split(separator)`: always at least one part. */
  function Split(s: string, separator: char): (parts: seq<string>)
    ensures parts != []
  {
    if s == "" then [""]
    else
      var rest := Split(s[1..], separator);
      if s[0] == separator then [""] + rest else [[s[0]] + rest[0]] + rest[1..]
  }

  lemma {:induction false} SplitFirst(part: string, separator: char, rest: string)
    requires separator !in part
    ensures Split(part, separator) == [part]
    ensures Split(part + [separator] + rest, separator) == [part] + Split(rest, separator)
  {
    if part == "" {
      assert part + [separator] + rest == [separator] + rest;
      assert ([separator] + rest)[1..] == rest;
    } else {
      var whole := part + [separator] + rest;
      assert whole[0] == part[0] && whole[1..] == part[1..] + [separator] + rest;
      SplitFirst(part[1..], separator, rest);
      assert [part[0]] + part[1..] == part;
      var tail := Split(rest, separator);
      assert ([part[1..]] + tail)[1..] == tail;
    }
  }

  lemma HeadAndTail<T>(s: seq<T>)
    requires s != []
    ensures [s[0]] + s[1..] == s
    ensures |s| == 1 ==> s == [s[0]]
  {
  }

  /** Splitting undoes joining when no part contains the separator. */
  lemma {:induction false} SplitJoin(parts: seq<string>, separator: char)
    requires parts != []
    requires forall p :: p in parts ==> separator !in p
    ensures Split(Join(parts, separator), separator) == parts
  {
    assert parts[0] in parts;
    HeadAndTail(parts);
    if |parts| == 1 {
      SplitFirst(parts[0], separator, "");
    } else {
      assert forall p :: p in parts[1..] ==> p in parts;
      SplitJoin(parts[1..], separator);
      SplitFirst(parts[0], separator, Join(parts[1..], separator));
    }
  }

  /** Joining undoes splitting, and no part contains the separator. */
  lemma {:induction false} JoinSplit(s: string, separator: char)
    ensures Join(Split(s, separator), separator) == s
    ensures forall p :: p in Split(s, separator) ==> separator !in p
  {
    if s != "" {
      JoinSplit(s[1..], separator);
      var rest := Split(s[1..], separator);
      if s[0] == separator {
        assert ([""] + rest)[1..] == rest;
        assert "" + [separator] + s[1..] == s;
      } else {
        var parts := [[s[0]] + rest[0]] + rest[1..];
        assert parts[1..] == rest[1..];
        assert [s[0]] + s[1..] == s;
        if |rest| > 1 {
          assert [s[0]] + (rest[0] + [separator] + Join(rest[1..], separator))
              == [s[0]] + rest[0] + [separator] + Join(rest[1..], separator);
        }
      }
    }
  }

  /** `s.strip(c)` for one character. */
  function StripLeft(s: string, c: char): (r: string)
    ensures r == "" || r[0] != c
  {
    if s != "" && s[0] == c then StripLeft(s[1..], c) else s
  }

  function StripRight(s: string, c: char): (r: string)
    ensures r == "" || r[|r| - 1] != c
    ensures |r| <= |s| && r == s[..|r|]
  {
    if s != "" && s[|s| - 1] == c then StripRight(s[..|s| - 1], c) else s
  }

  function Strip(s: string, c: char): (r: string)
  {
    StripRight(StripLeft(s, c), c)
  }

  /** Stripping takes `c` off both ends and nothing else. */
  lemma StripIs(s: string, c: char) returns (left: nat, right: nat)
    ensures left <= right <= |s| && Strip(s, c) == s[left..right]
    ensures forall i :: 0 <= i < left || right <= i < |s| ==> s[i] == c
    ensures left < right ==> s[left] != c && s[right - 1] != c
  {
    left := StripLeftIs(s, c);
    var n := StripRightIs(s[left..], c);
    right := left + n;
    assert forall i :: right <= i < |s| ==> s[i] == s[left..][i - left];
    assert s[left..][..n] == s[left..right];
  }

  lemma {:induction false} StripLeftIs(s: string, c: char) returns (n: nat)
    ensures n <= |s| && StripLeft(s, c) == s[n..]
    ensures forall i :: 0 <= i < n ==> s[i] == c
    ensures n < |s| ==> s[n] != c
  {
    if s != "" && s[0] == c {
      var m := StripLeftIs(s[1..], c);
      n := m + 1;
      assert s[1..][m..] == s[n..];
      assert forall i :: 1 <= i < n ==> s[i] == s[1..][i - 1];
    } else {
      n := 0;
      assert s[0..] == s;
    }
  }

  lemma {:induction false} StripRightIs(s: string, c: char) returns (n: nat)
    ensures n <= |s| && StripRight(s, c) == s[..n]
    ensures forall i :: n <= i < |s| ==> s[i] == c
    ensures n > 0 ==> s[n - 1] != c
  {
    if s != "" && s[|s| - 1] == c {
      n := StripRightIs(s[..|s| - 1], c);
      assert s[..|s| - 1][..n] == s[..n];
    } else {
      n := |s|;
      assert s[..n] == s;
    }
  }
}
